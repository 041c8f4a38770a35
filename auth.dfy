/**
 * core/auth.py: input validators, PIN hashing, the progressive lockout rule,
 * the login transition on the `users` table and the in-memory session table.
 * (main_old.py carries an identical copy of each helper at lines 29-117.)
 */
module Auth {
  import opened Wrappers
  import opened Database
  import Strings

  // ---------------------------------------------------------------------------
  // Validators: each is `re.match` of an anchored character-class repetition.
  // ---------------------------------------------------------------------------

  predicate IsAsciiAlnum(c: char) { 'a' <= c <= 'z' || 'A' <= c <= 'Z' || '0' <= c <= '9' }

  predicate IsAsciiDigit(c: char) { '0' <= c <= '9' }

  predicate IsSlugChar(c: char) { IsAsciiAlnum(c) || c == '-' }

  /** How many characters the greedy repetition `[class]{0,hi}` consumes at the start of `s`. */
  function ClassRun(s: string, inClass: char -> bool, hi: nat): (n: nat)
    ensures n <= |s| && n <= hi
    ensures forall k :: 0 <= k < n ==> inClass(s[k])
    ensures n < |s| && n < hi ==> !inClass(s[n])
  {
    if s == [] || hi == 0 || !inClass(s[0]) then 0 else 1 + ClassRun(s[1..], inClass, hi - 1)
  }

  /** `re.fullmatch('[class]{lo,hi}', s)`: the pattern must consume all of `s`. */
  function FullMatch(s: string, inClass: char -> bool, lo: nat, hi: nat): bool
  {
    var n := ClassRun(s, inClass, hi);
    lo <= n && n == |s|
  }

  /** A full match is exactly a string of the right length made of class characters. */
  lemma FullMatchIff(s: string, inClass: char -> bool, lo: nat, hi: nat)
    ensures FullMatch(s, inClass, lo, hi) <==>
            lo <= |s| <= hi && forall k :: 0 <= k < |s| ==> inClass(s[k])
  {
  }

  /**
   * `re.match(r'^[class]{lo,hi}$', s)` as Python evaluates it: `$` matches at the end
   * of the string and also just before a final "\n". Backtracking cannot help, because
   * the class never contains "\n".
   */
  function DollarMatch(s: string, inClass: char -> bool, lo: nat, hi: nat): bool
  {
    var n := ClassRun(s, inClass, hi);
    lo <= n && (n == |s| || s[n..] == "\n")
  }

  /** A `$` match is a full match of the string, or of the string minus a final newline. */
  lemma DollarMatchIff(s: string, inClass: char -> bool, lo: nat, hi: nat)
    requires !inClass('\n')
    ensures DollarMatch(s, inClass, lo, hi) <==>
              FullMatch(s, inClass, lo, hi) ||
              (|s| > 0 && s[|s| - 1] == '\n' && FullMatch(s[..|s| - 1], inClass, lo, hi))
  {
    var n := ClassRun(s, inClass, hi);
    FullMatchIff(s, inClass, lo, hi);
    if |s| > 0 {
      var t := s[..|s| - 1];
      FullMatchIff(t, inClass, lo, hi);
      if s[|s| - 1] == '\n' && FullMatch(t, inClass, lo, hi) {
        assert n == |t|;
      }
      if lo <= n && n == |s| - 1 && s[n] == '\n' {
        assert forall k :: 0 <= k < |t| ==> inClass(t[k]) by {
          forall k | 0 <= k < |t| ensures inClass(t[k]) { assert t[k] == s[k]; }
        }
      }
    }
  }

  /** `is_valid_username` with the intended anchoring: 3-20 ASCII letters and digits. */
  function IsValidUsername(s: string): (ok: bool)
    ensures ok <==> 3 <= |s| <= 20 && forall k :: 0 <= k < |s| ==> IsAsciiAlnum(s[k])
  {
    FullMatchIff(s, IsAsciiAlnum, 3, 20);
    FullMatch(s, IsAsciiAlnum, 3, 20)
  }

  /** `is_valid_pin` with the intended anchoring: exactly six ASCII digits. */
  function IsValidPin(s: string): (ok: bool)
    ensures ok <==> |s| == 6 && forall k :: 0 <= k < |s| ==> IsAsciiDigit(s[k])
  {
    FullMatchIff(s, IsAsciiDigit, 6, 6);
    FullMatch(s, IsAsciiDigit, 6, 6)
  }

  /** `is_valid_slug` with the intended anchoring: 1-50 ASCII letters, digits and '-'. */
  function IsValidSlug(s: string): (ok: bool)
    ensures ok <==> 1 <= |s| <= 50 && forall k :: 0 <= k < |s| ==> IsSlugChar(s[k])
  {
    FullMatchIff(s, IsSlugChar, 1, 50);
    FullMatch(s, IsSlugChar, 1, 50)
  }

  /** `is_valid_username` exactly as written, with `$`. */
  function IsValidUsernameAsWritten(s: string): (ok: bool)
    ensures ok <==> IsValidUsername(s) ||
                    (|s| > 0 && s[|s| - 1] == '\n' && IsValidUsername(s[..|s| - 1]))
  {
    DollarMatchIff(s, IsAsciiAlnum, 3, 20);
    FullMatchIff(s, IsAsciiAlnum, 3, 20);
    if |s| > 0 then FullMatchIff(s[..|s| - 1], IsAsciiAlnum, 3, 20); DollarMatch(s, IsAsciiAlnum, 3, 20)
    else DollarMatch(s, IsAsciiAlnum, 3, 20)
  }

  /** `is_valid_pin` exactly as written, with `$`. */
  function IsValidPinAsWritten(s: string): (ok: bool)
    ensures ok <==> IsValidPin(s) ||
                    (|s| > 0 && s[|s| - 1] == '\n' && IsValidPin(s[..|s| - 1]))
  {
    DollarMatchIff(s, IsAsciiDigit, 6, 6);
    FullMatchIff(s, IsAsciiDigit, 6, 6);
    if |s| > 0 then FullMatchIff(s[..|s| - 1], IsAsciiDigit, 6, 6); DollarMatch(s, IsAsciiDigit, 6, 6)
    else DollarMatch(s, IsAsciiDigit, 6, 6)
  }

  /** `is_valid_slug` exactly as written, with `$`. */
  function IsValidSlugAsWritten(s: string): (ok: bool)
    ensures ok <==> IsValidSlug(s) ||
                    (|s| > 0 && s[|s| - 1] == '\n' && IsValidSlug(s[..|s| - 1]))
  {
    DollarMatchIff(s, IsSlugChar, 1, 50);
    FullMatchIff(s, IsSlugChar, 1, 50);
    if |s| > 0 then FullMatchIff(s[..|s| - 1], IsSlugChar, 1, 50); DollarMatch(s, IsSlugChar, 1, 50)
    else DollarMatch(s, IsSlugChar, 1, 50)
  }

  /** The validators as written accept a trailing newline that the intended ones refuse. */
  lemma TrailingNewlineAccepted()
    ensures IsValidUsernameAsWritten("alice\n") && !IsValidUsername("alice\n")
    ensures IsValidPinAsWritten("123456\n") && !IsValidPin("123456\n")
    ensures IsValidSlugAsWritten("groceries\n") && !IsValidSlug("groceries\n")
  {
    var u, p, g := "alice\n", "123456\n", "groceries\n";
    assert u[..5] == "alice" && IsValidUsername(u[..5]) && !IsAsciiAlnum(u[5]);
    assert p[..6] == "123456" && IsValidPin(p[..6]) && !IsAsciiDigit(p[6]);
    assert g[..9] == "groceries" && IsValidSlug(g[..9]) && !IsSlugChar(g[9]);
  }

  /**
   * Validating before or after `lower()` is the same test: signup validates the raw
   * name, `create_user` the lowered one.
   */
  lemma LowerKeepsUsernameValidity(s: string)
    ensures IsValidUsername(Strings.Lower(s)) <==> IsValidUsername(s)
  {
    var l := Strings.Lower(s);
    forall k | 0 <= k < |s| ensures IsAsciiAlnum(l[k]) <==> IsAsciiAlnum(s[k]) {
      assert l[k] == Strings.LowerChar(s[k]);
    }
  }

  // ---------------------------------------------------------------------------
  // PIN hashing (bcrypt is a foreign call: see README).
  // ---------------------------------------------------------------------------

  /** The default of the PIN_SALT environment variable. */
  const PIN_SALT: string := "default_development_salt_change_in_production"

  /** `verify_pin`: `bcrypt.checkpw` re-hashes pin + PIN_SALT under the stored salt. */
  function VerifyPin(pin: string, h: PinHash): bool
  {
    h.secret == pin + PIN_SALT
  }

  /** The salt is appended, so the salted secret determines the PIN. */
  lemma SaltedSecretDeterminesPin(pin: string, gensalt: nat)
    ensures forall other :: VerifyPin(other, Bcrypt(pin + PIN_SALT, gensalt)) ==> other == pin
  {
    forall other | VerifyPin(other, Bcrypt(pin + PIN_SALT, gensalt)) ensures other == pin {
      assert |other| == |pin|;
      assert other == (other + PIN_SALT)[..|other|];
    }
  }

  /**
   * `hash_pin`: bcrypt of pin + PIN_SALT under a fresh random salt `gensalt`. The hash
   * accepts the PIN it was made from, whatever the salt, and no other PIN.
   */
  function HashPin(pin: string, gensalt: nat): (h: PinHash)
    ensures h.gensalt == gensalt
    ensures VerifyPin(pin, h)
    ensures forall other :: VerifyPin(other, h) <==> other == pin
  {
    SaltedSecretDeterminesPin(pin, gensalt);
    Bcrypt(pin + PIN_SALT, gensalt)
  }

  // ---------------------------------------------------------------------------
  // Progressive lockout.
  // ---------------------------------------------------------------------------

  /** Failed attempts from which a lockout applies. */
  const LOCKOUT_THRESHOLD: nat := 4

  /** Lockout length in minutes: 4-5 failures 5, 6-7 failures 15, 8 or more 60. */
  function LockoutMinutes(failedAttempts: nat): (minutes: nat)
    ensures minutes == 5 <==> failedAttempts < 6
    ensures minutes == 15 <==> 6 <= failedAttempts < 8
    ensures minutes == 60 <==> 8 <= failedAttempts
  {
    if failedAttempts >= 8 then 60 else if failedAttempts >= 6 then 15 else 5
  }

  /**
   * `check_rate_limit(username)`: whether a login attempt may proceed at `now`.
   * Unknown users, users under the threshold and users without a recorded failure
   * time are let through; otherwise the lockout must have run out strictly.
   */
  function CheckRateLimit(users: map<string, User>, username: string, now: Time): (allowed: bool)
    ensures username !in users ==> allowed
    ensures username in users && users[username].failedAttempts < LOCKOUT_THRESHOLD ==> allowed
    ensures username in users && users[username].lastFail.None? ==> allowed
    ensures username in users && users[username].failedAttempts >= LOCKOUT_THRESHOLD &&
            users[username].lastFail.Some? ==>
              (allowed <==> now - users[username].lastFail.value >
                              LockoutMinutes(users[username].failedAttempts) * 60)
  {
    if username !in users then true
    else
      var u := users[username];
      if u.failedAttempts < LOCKOUT_THRESHOLD then true
      else if u.lastFail.None? then true
      else now - u.lastFail.value > LockoutMinutes(u.failedAttempts) * 60
  }

  /** More failures never shorten the lockout. */
  lemma LockoutMonotone(a: nat, b: nat)
    requires a <= b
    ensures 5 <= LockoutMinutes(a) <= LockoutMinutes(b) <= 60
  {
  }

  /**
   * At exactly the end of the lockout the attempt is still refused; one second
   * later it is allowed.
   */
  lemma LockoutBoundary(users: map<string, User>, username: string)
    requires username in users && users[username].failedAttempts >= LOCKOUT_THRESHOLD
    requires users[username].lastFail.Some?
    ensures var end := users[username].lastFail.value + LockoutMinutes(users[username].failedAttempts) * 60;
            !CheckRateLimit(users, username, end) && CheckRateLimit(users, username, end + 1)
  {
  }

  // ---------------------------------------------------------------------------
  // The login transition on `users` (`authenticate_user`, and `login` in main_old.py).
  // ---------------------------------------------------------------------------

  datatype LoginOutcome = Authenticated | RateLimited | BadCredentials

  /** The UPDATE after a wrong PIN; it matches no row for an unknown user. */
  function RecordFailure(users: map<string, User>, username: string, now: Time): (after: map<string, User>)
    ensures after.Keys == users.Keys
    ensures forall v :: v in users && v != username ==> after[v] == users[v]
    ensures username in users ==>
              after[username] == users[username].(failedAttempts := users[username].failedAttempts + 1,
                                                  lastFail := Some(now))
  {
    if username in users then
      users[username := users[username].(failedAttempts := users[username].failedAttempts + 1,
                                         lastFail := Some(now))]
    else users
  }

  /** The UPDATE after a correct PIN. */
  function RecordSuccess(users: map<string, User>, username: string, ipHash: Digest): (after: map<string, User>)
    requires username in users
    ensures after.Keys == users.Keys
    ensures forall v :: v in users && v != username ==> after[v] == users[v]
    ensures after[username].failedAttempts == 0 && after[username].lastFail.None?
    ensures after[username].lastIpHash == Some(ipHash)
    ensures after[username].pinHash == users[username].pinHash
    ensures after[username].createdAt == users[username].createdAt
  {
    users[username := users[username].(failedAttempts := 0, lastFail := None, lastIpHash := Some(ipHash))]
  }

  /**
   * One login attempt: the rate limit is checked before the PIN, a wrong PIN (or an
   * unknown user) counts a failure, a correct PIN clears the counter.
   */
  function Login(users: map<string, User>, username: string, pin: string, ipHash: Digest, now: Time)
    : (r: (LoginOutcome, map<string, User>))
    ensures r.1.Keys == users.Keys
    ensures forall v :: v in users && v != username ==> r.1[v] == users[v]
    ensures r.0 == RateLimited <==> !CheckRateLimit(users, username, now)
    ensures r.0 == RateLimited ==> r.1 == users
    ensures r.0 == Authenticated <==>
              CheckRateLimit(users, username, now) && username in users &&
              VerifyPin(pin, users[username].pinHash)
    ensures r.0 == Authenticated ==>
              r.1[username] == users[username].(failedAttempts := 0, lastFail := None,
                                                lastIpHash := Some(ipHash))
    ensures r.0 == BadCredentials && username in users ==>
              r.1[username] == users[username].(failedAttempts := users[username].failedAttempts + 1,
                                                lastFail := Some(now))
    ensures username !in users ==> r.1 == users
    ensures username in users && r.1[username].failedAttempts < users[username].failedAttempts ==>
              r.0 == Authenticated
  {
    if !CheckRateLimit(users, username, now) then (RateLimited, users)
    else if username !in users || !VerifyPin(pin, users[username].pinHash) then
      (BadCredentials, RecordFailure(users, username, now))
    else (Authenticated, RecordSuccess(users, username, ipHash))
  }

  /** Three wrong PINs and then the right one: logged in, counter back to zero. */
  lemma ThreeFailuresThenSuccess(users: map<string, User>, name: string, pin: string, wrong: string,
                                 ip: Digest, t: Time)
    requires name in users && users[name].failedAttempts == 0
    requires VerifyPin(pin, users[name].pinHash) && !VerifyPin(wrong, users[name].pinHash)
    ensures var s1 := Login(users, name, wrong, ip, t).1;
            var s2 := Login(s1, name, wrong, ip, t + 1).1;
            var s3 := Login(s2, name, wrong, ip, t + 2).1;
            var last := Login(s3, name, pin, ip, t + 3);
            last.0 == Authenticated && last.1[name].failedAttempts == 0
  {
  }

  /**
   * Four wrong PINs lock the account for five minutes: even the right PIN is refused
   * (changing nothing) until more than 300 seconds after the fourth failure.
   */
  lemma FourFailuresLockOut(users: map<string, User>, name: string, pin: string, wrong: string,
                            ip: Digest, t: Time, later: Time)
    requires name in users && users[name].failedAttempts == 0
    requires VerifyPin(pin, users[name].pinHash) && !VerifyPin(wrong, users[name].pinHash)
    requires t + 3 <= later
    ensures var s1 := Login(users, name, wrong, ip, t).1;
            var s2 := Login(s1, name, wrong, ip, t + 1).1;
            var s3 := Login(s2, name, wrong, ip, t + 2).1;
            var s4 := Login(s3, name, wrong, ip, t + 3).1;
            var next := Login(s4, name, pin, ip, later);
            s4[name].failedAttempts == 4 &&
            (later - (t + 3) <= 300 ==> next.0 == RateLimited && next.1 == s4) &&
            (later - (t + 3) > 300 ==> next.0 == Authenticated)
  {
  }

  // ---------------------------------------------------------------------------
  // Sessions: `active_sessions`, token -> (username, expiry).
  // ---------------------------------------------------------------------------

  /** Sessions last 24 hours. */
  const SESSION_SECONDS: nat := 24 * 60 * 60

  datatype Session = Session(username: string, expires: Time)

  /**
   * The user `get_session_user` reports for the `session` cookie: none when the cookie
   * is missing, empty, unknown or expired (the expiry instant itself still counts).
   */
  function SessionUser(sessions: map<string, Session>, cookie: Option<string>, now: Time)
    : (user: Option<string>)
    ensures user.Some? <==> cookie.Some? && cookie.value != "" && cookie.value in sessions &&
                            now <= sessions[cookie.value].expires
    ensures user.Some? ==> user.value == sessions[cookie.value].username
  {
    if cookie.None? || cookie.value == "" || cookie.value !in sessions then None
    else if now > sessions[cookie.value].expires then None
    else Some(sessions[cookie.value].username)
  }

  /** The table after that lookup: an expired token is deleted, nothing else changes. */
  function AfterLookup(sessions: map<string, Session>, cookie: Option<string>, now: Time)
    : (after: map<string, Session>)
    ensures after.Keys <= sessions.Keys
    ensures forall t :: t in after ==> after[t] == sessions[t]
    ensures forall t :: t in sessions && t !in after ==>
              cookie == Some(t) && now > sessions[t].expires
  {
    if cookie.Some? && cookie.value != "" && cookie.value in sessions &&
       now > sessions[cookie.value].expires
    then sessions - {cookie.value}
    else sessions
  }

  /** A fresh session answers for its user for exactly 24 hours, and is evicted afterwards. */
  lemma SessionLifetime(sessions: map<string, Session>, token: string, user: string,
                        created: Time, now: Time)
    requires token != "" && created <= now
    ensures var s := sessions[token := Session(user, created + SESSION_SECONDS)];
            (now <= created + SESSION_SECONDS ==>
               SessionUser(s, Some(token), now) == Some(user) && AfterLookup(s, Some(token), now) == s) &&
            (now > created + SESSION_SECONDS ==>
               SessionUser(s, Some(token), now).None? && AfterLookup(s, Some(token), now) == s - {token})
  {
  }

  /** Once a lookup has answered None it keeps answering None. */
  lemma LookupNoneIsStable(sessions: map<string, Session>, cookie: Option<string>, now: Time)
    requires SessionUser(sessions, cookie, now).None?
    ensures SessionUser(AfterLookup(sessions, cookie, now), cookie, now).None?
  {
  }

  /** The module-level `active_sessions` dictionary. */
  class SessionTable {
    var sessions: map<string, Session>

    constructor ()
      ensures sessions == map[]
    {
      sessions := map[];
    }

    /** `create_session`: `token` stands for `secrets.token_urlsafe(32)`, `now` for the clock. */
    method CreateSession(username: string, token: string, now: Time) returns (t: string)
      modifies this
      ensures t == token
      ensures sessions == old(sessions)[token := Session(username, now + SESSION_SECONDS)]
    {
      sessions := sessions[token := Session(username, now + SESSION_SECONDS)];
      t := token;
    }

    /** `get_session_user`, with lazy removal of an expired token. */
    method GetSessionUser(cookie: Option<string>, now: Time) returns (user: Option<string>)
      modifies this
      ensures user == SessionUser(old(sessions), cookie, now)
      ensures sessions == AfterLookup(old(sessions), cookie, now)
    {
      if cookie.None? || cookie.value == "" || cookie.value !in sessions {
        return None;
      }
      var data := sessions[cookie.value];
      if now > data.expires {
        sessions := sessions - {cookie.value};
        return None;
      }
      user := Some(data.username);
    }

    /** `clear_session`: removes the token if present, otherwise does nothing. */
    method ClearSession(token: string)
      modifies this
      ensures sessions == old(sessions) - {token}
      ensures token !in old(sessions) ==> sessions == old(sessions)
    {
      if token in sessions {
        sessions := sessions - {token};
      }
    }
  }
}
