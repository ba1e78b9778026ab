/** The user entity: identity and profile fields, the online/activity
    timestamps, and the XP total with the level derived from it. Times are
    explicit instants (`now`); Java `int` arithmetic on the XP total wraps. */
module Users {
  import opened JavaLang

  /** User.ProficiencyLevel */
  datatype ProficiencyLevel = BEGINNER | ELEMENTARY | INTERMEDIATE | UPPER_INTERMEDIATE | ADVANCED | NATIVE

  /** Enum.name() */
  function LevelName(p: ProficiencyLevel): string {
    match p
    case BEGINNER => "BEGINNER"
    case ELEMENTARY => "ELEMENTARY"
    case INTERMEDIATE => "INTERMEDIATE"
    case UPPER_INTERMEDIATE => "UPPER_INTERMEDIATE"
    case ADVANCED => "ADVANCED"
    case NATIVE => "NATIVE"
  }

  function LevelDisplayName(p: ProficiencyLevel): string {
    match p
    case BEGINNER => "Beginner"
    case ELEMENTARY => "Elementary"
    case INTERMEDIATE => "Intermediate"
    case UPPER_INTERMEDIATE => "Upper-Intermediate"
    case ADVANCED => "Advanced"
    case NATIVE => "Native"
  }

  function LevelOrder(p: ProficiencyLevel): int {
    match p
    case BEGINNER => 1
    case ELEMENTARY => 2
    case INTERMEDIATE => 3
    case UPPER_INTERMEDIATE => 4
    case ADVANCED => 5
    case NATIVE => 6
  }

  /** Enum.valueOf: the constant with exactly this name, or None where Java
      throws IllegalArgumentException. */
  function LevelValueOf(name: string): (r: Option<ProficiencyLevel>)
    ensures r.Some? ==> LevelName(r.value) == name
  {
    if name == "BEGINNER" then Some(BEGINNER)
    else if name == "ELEMENTARY" then Some(ELEMENTARY)
    else if name == "INTERMEDIATE" then Some(INTERMEDIATE)
    else if name == "UPPER_INTERMEDIATE" then Some(UPPER_INTERMEDIATE)
    else if name == "ADVANCED" then Some(ADVANCED)
    else if name == "NATIVE" then Some(NATIVE)
    else None
  }

  /** valueOf and name() are inverse, and the order numbers the levels 1 to 6 without gaps. */
  lemma LevelNamesRoundTrip(p: ProficiencyLevel, name: string)
    ensures LevelValueOf(LevelName(p)) == Some(p)
    ensures LevelValueOf(name).Some? <==> exists q :: LevelName(q) == name
    ensures 1 <= LevelOrder(p) <= 6
    ensures forall q :: LevelOrder(q) == LevelOrder(p) ==> q == p
  {
    if exists q :: LevelName(q) == name {
      var q :| LevelName(q) == name;
      assert LevelValueOf(name) == Some(q) by { match q { case _ => } }
    }
  }

  // ---------------------------------------------------------------------------
  // Levels

  /** calculateLevel: a step function with thresholds 100, 250, 500, 1000,
      2000, 3500, 5500, 8000, 11000, 15000, then one level per 5000 XP. */
  function CalculateLevel(xp: int): (r: int)
    ensures r >= 1
    ensures xp < 15000 ==> r <= 10
    ensures xp >= 15000 ==> r >= 10
  {
    if xp < 100 then 1
    else if xp < 250 then 2
    else if xp < 500 then 3
    else if xp < 1000 then 4
    else if xp < 2000 then 5
    else if xp < 3500 then 6
    else if xp < 5500 then 7
    else if xp < 8000 then 8
    else if xp < 11000 then 9
    else if xp < 15000 then 10
    else 10 + JavaDiv(xp - 15000, 5000)
  }

  /** The table of getXpForNextLevel. */
  const THRESHOLDS: seq<int> := [0, 100, 250, 500, 1000, 2000, 3500, 5500, 8000, 11000, 15000]

  /** Every level is at least 1, and the level never falls as XP grows. */
  lemma LevelMonotone(x: int, y: int)
    requires x <= y
    ensures 1 <= CalculateLevel(x) <= CalculateLevel(y)
  {
    if x >= 15000 {
      assert (x - 15000) / 5000 <= (y - 15000) / 5000;
    }
  }

  /** Level 10 covers 11000 <= xp < 20000: the `< 15000` step and the first
      5000 of the formula both give 10. */
  lemma LevelTenSpan(xp: int)
    ensures CalculateLevel(xp) == 10 <==> 11000 <= xp < 20000
  {
    if xp >= 20000 {
      assert (xp - 15000) / 5000 >= 1;
    }
  }

  /** From level 10 on, level L starts exactly at 15000 + (L - 10) * 5000. */
  lemma LevelFormula(xp: int, l: int)
    requires l >= 11
    ensures CalculateLevel(xp) >= l <==> xp >= 15000 + (l - 10) * 5000
  {
    if xp >= 15000 {
      var q := (xp - 15000) / 5000;
      assert q * 5000 <= xp - 15000 < (q + 1) * 5000;
      if q >= l - 10 {
        assert (l - 10) * 5000 <= q * 5000;
      } else {
        assert (q + 1) * 5000 <= (l - 10) * 5000;
      }
    }
  }

  /** getXpForNextLevel: the table entry below 11, else 15000 + (level - 10) * 5000
      in 32-bit arithmetic; None where a negative level makes Java index out of bounds. */
  function XpForNextLevel(level: int): (r: Option<int>)
    ensures r.None? <==> level < 0
  {
    if level < 0 then None
    else if level < |THRESHOLDS| then Some(THRESHOLDS[level])
    else Some(Wrap32(15000 + (level - 10) * 5000))
  }

  /** For levels 1 to 9 the answer is the least XP with the next level. */
  lemma NextLevelBelowTen(level: int)
    requires 1 <= level <= 9
    ensures XpForNextLevel(level).Some?
    ensures var t := XpForNextLevel(level).value;
      CalculateLevel(t) == level + 1 && CalculateLevel(t - 1) == level
  {
  }

  /** From level 10 on, the answer lies inside the CURRENT level, so it
      never reaches level + 1 (for every level an int XP total can reach). */
  lemma NextLevelFromTen(level: int)
    requires 10 <= level <= CalculateLevel(INT_MAX)
    ensures XpForNextLevel(level).Some?
    ensures var t := XpForNextLevel(level).value;
      CalculateLevel(t) == level
  {
    assert CalculateLevel(INT_MAX) == 429503;
    var t := 15000 + (level - 10) * 5000;
    assert t <= INT_MAX;
    if level == 10 {
      assert XpForNextLevel(level).value == 15000;
    } else {
      assert XpForNextLevel(level).value == t;
      LevelFormula(t, level);
      LevelFormula(t, level + 1);
    }
  }

  /** Java's int XP total: a user at the maximum who earns 1 more XP drops to level 1. */
  lemma XpOverflow()
    ensures Wrap32(INT_MAX + 1) == INT_MIN && CalculateLevel(Wrap32(INT_MAX + 1)) == 1
  {
  }

  // ---------------------------------------------------------------------------
  // The entity

  class User {
    var email: string
    var userTag: string
    var passwordHash: string
    var displayName: string
    var bio: Option<string>
    var avatarUrl: Option<string>
    var country: Option<string>
    var nativeLanguage: Option<string>
    var targetLanguage: Option<string>
    var proficiencyLevel: ProficiencyLevel
    var isActive: bool
    var isOnline: bool
    var createdAt: int
    var lastLogin: Option<int>
    var lastLogout: Option<int>
    var lastActivityAt: Option<int>
    var totalXp: int
    var level: int

    /** The XP total fits a Java int and the level is the one it earns. */
    ghost predicate LevelInSync()
      reads this
    {
      INT_MIN <= totalXp <= INT_MAX && level == CalculateLevel(totalXp)
    }

    constructor (email: string, displayName: string, passwordHash: string, userTag: string, now: int)
      ensures this.email == email && this.displayName == displayName
      ensures this.passwordHash == passwordHash && this.userTag == userTag
      ensures bio == None && avatarUrl == None && country == None
      ensures nativeLanguage == Some("Turkish") && targetLanguage == Some("English")
      ensures proficiencyLevel == BEGINNER && isActive && !isOnline
      ensures createdAt == now && lastLogin == None && lastLogout == None && lastActivityAt == None
      ensures totalXp == 0 && level == 1
    {
      this.email := email;
      this.displayName := displayName;
      this.passwordHash := passwordHash;
      this.userTag := userTag;
      bio := None;
      avatarUrl := None;
      country := None;
      nativeLanguage := Some("Turkish");
      targetLanguage := Some("English");
      proficiencyLevel := BEGINNER;
      isActive := true;
      isOnline := false;
      createdAt := now;
      lastLogin := None;
      lastLogout := None;
      lastActivityAt := None;
      totalXp := 0;
      level := 1;
    }

    /** getFullDisplayTag: the display name followed by the tag. */
    function FullDisplayTag(): (r: string)
      reads this
      ensures StartsWith(r, displayName) && r[|displayName|..] == userTag
    {
      displayName + userTag
    }

    /** The profile setters updateProfile uses, applied together. */
    method SetProfile(displayName: string, bio: Option<string>, avatarUrl: Option<string>, country: Option<string>,
                      nativeLanguage: Option<string>, targetLanguage: Option<string>, proficiencyLevel: ProficiencyLevel)
      modifies this`displayName, this`bio, this`avatarUrl, this`country,
               this`nativeLanguage, this`targetLanguage, this`proficiencyLevel
      ensures this.displayName == displayName && this.bio == bio && this.avatarUrl == avatarUrl
      ensures this.country == country && this.nativeLanguage == nativeLanguage
      ensures this.targetLanguage == targetLanguage && this.proficiencyLevel == proficiencyLevel
    {
      this.displayName := displayName;
      this.bio := bio;
      this.avatarUrl := avatarUrl;
      this.country := country;
      this.nativeLanguage := nativeLanguage;
      this.targetLanguage := targetLanguage;
      this.proficiencyLevel := proficiencyLevel;
    }

    method RecordLogin(now: int)
      modifies this`lastLogin, this`isOnline, this`lastActivityAt
      ensures lastLogin == Some(now) && isOnline && lastActivityAt == Some(now)
    {
      lastLogin := Some(now);
      isOnline := true;
      lastActivityAt := Some(now);
    }

    method RecordLogout(now: int)
      modifies this`lastLogout, this`isOnline
      ensures lastLogout == Some(now) && !isOnline
    {
      lastLogout := Some(now);
      isOnline := false;
    }

    method RecordActivity(now: int)
      modifies this`lastActivityAt
      ensures lastActivityAt == Some(now)
    {
      lastActivityAt := Some(now);
    }

    /** addXp: returns whether the level went up. */
    method AddXp(xp: int) returns (leveledUp: bool)
      requires INT_MIN <= xp <= INT_MAX
      modifies this`totalXp, this`level
      ensures totalXp == Wrap32(old(totalXp) + xp)
      ensures level == CalculateLevel(totalXp)
      ensures leveledUp <==> level > old(level)
      ensures LevelInSync()
      ensures old(LevelInSync()) && xp >= 0 && old(totalXp) + xp <= INT_MAX ==> level >= old(level)
    {
      var oldLevel := level;
      totalXp := Wrap32(totalXp + xp);
      level := CalculateLevel(totalXp);
      leveledUp := level > oldLevel;
      if old(LevelInSync()) && xp >= 0 && old(totalXp) + xp <= INT_MAX {
        LevelMonotone(old(totalXp), totalXp);
      }
    }
  }
}
