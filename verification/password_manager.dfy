/** The PIN store behind the disguised game: one encrypted config file
    holding a bcrypt hash of the 4-digit PIN, a security question and the
    hash of its answer, and a failed-attempt counter that locks the vault
    for an hour after five wrong PINs. Reads go through an in-memory cache
    that is trusted only while it is newer than the file and not dirty. */
module PasswordManager {
  import opened Wrappers
  import opened Strings

  /** bcrypt.hashpw(secret, salt), with the salt drawn by bcrypt.gensalt(). */
  datatype Hash = Hash(secret: string, salt: nat)

  function HashPw(secret: string, salt: nat): Hash { Hash(secret, salt) }

  /** bcrypt.checkpw: accepts exactly the secret the hash was made from,
      whatever salt was drawn. */
  predicate CheckPw(secret: string, h: Hash) { h.secret == secret }

  const MaxFailedAttempts: int := 5
  const LockoutSeconds: int := 3600

  /** The decrypted contents of vault_config.dat. */
  datatype Config = Config(
    pinHash: Hash,
    securityQuestion: string,
    answerHash: Hash,
    failedAttempts: int,
    lastAttemptTime: int,
    lockoutUntil: int,
    setupComplete: bool)

  /** The config file on disk: absent, present but not decryptable as a
      config, or holding one. */
  datatype ConfigFile = Missing | Unreadable | Stored(config: Config)

  function FileConfig(f: ConfigFile): Option<Config> {
    if f.Stored? then Some(f.config) else None
  }

  /** The second value verify_pin answers. */
  datatype PinStatus = Success | Locked | Failed(attempts: int) | Error

  function StatusText(s: PinStatus): (t: string)
    ensures s.Failed? ==> t == "failed_" + IntToString(s.attempts)
  {
    match s
    case Success => "success"
    case Locked => "locked"
    case Failed(n) => "failed_" + IntToString(n)
    case Error => "error"
  }

  /** The config setup_password writes. */
  function NewConfig(pin: string, question: string, answer: string, pinSalt: nat, answerSalt: nat): (c: Config)
    ensures CheckPw(pin, c.pinHash) && CheckPw(Lower(answer), c.answerHash)
    ensures c.securityQuestion == question
    ensures c.failedAttempts == 0 && c.lastAttemptTime == 0 && c.lockoutUntil == 0 && c.setupComplete
  {
    Config(HashPw(pin, pinSalt), question, HashPw(Lower(answer), answerSalt), 0, 0, 0, true)
  }

  predicate IsLocked(c: Config, now: int) { now < c.lockoutUntil }

  /** One PIN attempt at time now, on a loaded config: the status returned
      and the config as saved afterwards (a locked attempt saves nothing). */
  function AttemptPin(c: Config, pin: string, now: int): (r: (PinStatus, Config))
    ensures IsLocked(c, now) ==> r == (Locked, c)
    ensures !IsLocked(c, now) ==> r.1.lastAttemptTime == now
    ensures !IsLocked(c, now) && CheckPw(pin, c.pinHash) ==> r.0 == Success && r.1.failedAttempts == 0
    ensures !IsLocked(c, now) && !CheckPw(pin, c.pinHash) ==> r.0 == Failed(r.1.failedAttempts)
    ensures r.1.pinHash == c.pinHash && r.1.answerHash == c.answerHash && r.1.securityQuestion == c.securityQuestion
  {
    if IsLocked(c, now) then (Locked, c)
    else if CheckPw(pin, c.pinHash) then (Success, c.(failedAttempts := 0, lastAttemptTime := now))
    else
      var failed := c.failedAttempts + 1;
      var c' := c.(failedAttempts := failed, lastAttemptTime := now);
      if failed >= MaxFailedAttempts then
        var locked := c'.(lockoutUntil := now + LockoutSeconds, failedAttempts := 0);
        (Failed(0), locked)
      else (Failed(failed), c')
  }

  /** A wrong PIN outside a lockout counts one more failure; the fifth
      starts a one-hour lockout and puts the counter back to zero. */
  lemma WrongPinCounts(c: Config, pin: string, now: int)
    requires !IsLocked(c, now) && !CheckPw(pin, c.pinHash)
    ensures var (s, c') := AttemptPin(c, pin, now);
      && (c.failedAttempts + 1 < MaxFailedAttempts ==>
            s == Failed(c.failedAttempts + 1) && c'.failedAttempts == c.failedAttempts + 1
            && c'.lockoutUntil == c.lockoutUntil)
      && (c.failedAttempts + 1 >= MaxFailedAttempts ==>
            s == Failed(0) && c'.failedAttempts == 0 && c'.lockoutUntil == now + LockoutSeconds)
  {
  }

  /** The counter the config stores stays within 0..4. */
  lemma AttemptsStayBelowFive(c: Config, pin: string, now: int)
    requires 0 <= c.failedAttempts < MaxFailedAttempts
    ensures 0 <= AttemptPin(c, pin, now).1.failedAttempts < MaxFailedAttempts
  {
  }

  /** A run of attempts, each with its own PIN and time, from config c. */
  function AttemptAll(c: Config, pins: seq<string>, times: seq<int>): (r: (seq<PinStatus>, Config))
    requires |pins| == |times|
    ensures |r.0| == |pins|
    decreases |pins|
  {
    if pins == [] then ([], c)
    else
      var (s, c') := AttemptPin(c, pins[0], times[0]);
      var (rest, last) := AttemptAll(c', pins[1..], times[1..]);
      ([s] + rest, last)
  }

  /** Five wrong PINs in a row, starting from a clean unlocked config,
      report failed_1 .. failed_4 and then failed_0, and lock the vault for
      an hour from the fifth attempt. */
  lemma {:induction false} FiveStrikesLock(c: Config, pins: seq<string>, times: seq<int>)
    requires c.failedAttempts == 0
    requires |pins| == 5 && |times| == 5
    requires forall i :: 0 <= i < 5 ==> !CheckPw(pins[i], c.pinHash)
    requires forall i :: 0 <= i < 5 ==> c.lockoutUntil <= times[i]
    ensures AttemptAll(c, pins, times).0 == [Failed(1), Failed(2), Failed(3), Failed(4), Failed(0)]
    ensures AttemptAll(c, pins, times).1.failedAttempts == 0
    ensures AttemptAll(c, pins, times).1.lockoutUntil == times[4] + LockoutSeconds
  {
    var c1 := AttemptPin(c, pins[0], times[0]).1;
    var c2 := AttemptPin(c1, pins[1], times[1]).1;
    var c3 := AttemptPin(c2, pins[2], times[2]).1;
    var c4 := AttemptPin(c3, pins[3], times[3]).1;
    var c5 := AttemptPin(c4, pins[4], times[4]).1;
    assert c4.failedAttempts == 4 && c4.lockoutUntil == c.lockoutUntil;
    AttemptAllStep(c4, pins[4..], times[4..]);
    assert pins[4..][1..] == [] && times[4..][1..] == [];
    AttemptAllStep(c3, pins[3..], times[3..]);
    assert pins[3..][1..] == pins[4..] && times[3..][1..] == times[4..];
    AttemptAllStep(c2, pins[2..], times[2..]);
    assert pins[2..][1..] == pins[3..] && times[2..][1..] == times[3..];
    AttemptAllStep(c1, pins[1..], times[1..]);
    assert pins[1..][1..] == pins[2..] && times[1..][1..] == times[2..];
    AttemptAllStep(c, pins, times);
  }

  lemma AttemptAllStep(c: Config, pins: seq<string>, times: seq<int>)
    requires |pins| == |times| > 0
    ensures var r := AttemptPin(c, pins[0], times[0]); var rest := AttemptAll(r.1, pins[1..], times[1..]);
      AttemptAll(c, pins, times) == ([r.0] + rest.0, rest.1)
  {
  }

  /** get_lockout_time_remaining on a loaded config. */
  function LockoutRemaining(c: Config, now: int): (secs: int)
    ensures secs >= 0
    ensures secs > 0 <==> IsLocked(c, now)
  {
    if now < c.lockoutUntil then c.lockoutUntil - now else 0
  }

  /** After the attempt that locked the vault at time t, the remaining time
      is at most an hour and runs out exactly an hour later. */
  lemma LockoutBounded(c: Config, pin: string, t: int, now: int)
    requires !IsLocked(c, t) && !CheckPw(pin, c.pinHash) && c.failedAttempts == MaxFailedAttempts - 1
    requires t <= now
    ensures var c' := AttemptPin(c, pin, t).1;
      && 0 <= LockoutRemaining(c', now) <= LockoutSeconds
      && (LockoutRemaining(c', now) == 0 <==> now >= t + LockoutSeconds)
  {
  }

  /** verify_security_answer on a loaded config. */
  predicate AnswerAccepted(c: Config, answer: string) {
    CheckPw(Lower(answer), c.answerHash)
  }

  /** The answer is checked without regard to letter case: after setup,
      an answer is accepted exactly when it lower-cases to the same text. */
  lemma AnswerIsCaseInsensitive(pin: string, question: string, answer: string, pinSalt: nat, answerSalt: nat,
                                given: string)
    ensures AnswerAccepted(NewConfig(pin, question, answer, pinSalt, answerSalt), given)
            <==> Lower(given) == Lower(answer)
  {
  }

  /** reset_password on a loaded config: new PIN hash, counter and lockout cleared. */
  function ResetConfig(c: Config, newPin: string, salt: nat): (c': Config)
    ensures CheckPw(newPin, c'.pinHash)
    ensures c'.failedAttempts == 0 && c'.lockoutUntil == 0
    ensures c' == c.(pinHash := c'.pinHash, failedAttempts := 0, lockoutUntil := 0)
  {
    c.(pinHash := HashPw(newPin, salt), failedAttempts := 0, lockoutUntil := 0)
  }

  /** Right after a reset the new PIN opens the vault, even during a lockout. */
  lemma ResetUnlocks(c: Config, newPin: string, salt: nat, now: int)
    requires now >= 0
    ensures AttemptPin(ResetConfig(c, newPin, salt), newPin, now).0 == Success
  {
  }

  class PasswordManager {
    var file: ConfigFile
    /** os.path.getmtime of the config file. */
    var fileMtime: int
    var cache: Option<Config>
    var cacheTimestamp: int
    var cacheDirty: bool

    /** The cache is trusted when it is set, at least as new as the file and not dirty. */
    predicate CacheUsable()
      reads this
    {
      cache.Some? && cacheTimestamp >= fileMtime && !cacheDirty
    }

    /** A trusted cache always agrees with the file. */
    ghost predicate Valid()
      reads this
    {
      CacheUsable() ==> file == Stored(cache.value)
    }

    constructor (file: ConfigFile, fileMtime: int)
      ensures Valid()
      ensures this.file == file && this.fileMtime == fileMtime
      ensures cache == None && cacheTimestamp == 0 && !cacheDirty
    {
      this.file := file;
      this.fileMtime := fileMtime;
      cache := None;
      cacheTimestamp := 0;
      cacheDirty := false;
    }

    /** _load_config: the cached copy while it is trusted, else the file
        (refreshing the cache when the file holds a config). */
    method LoadConfig(now: int) returns (r: Option<Config>)
      requires Valid()
      modifies this`cache, this`cacheTimestamp, this`cacheDirty
      ensures Valid()
      ensures r == FileConfig(file)
      ensures file.Missing? || old(CacheUsable()) || file.Unreadable? ==>
        cache == old(cache) && cacheTimestamp == old(cacheTimestamp) && cacheDirty == old(cacheDirty)
      ensures file.Stored? && !old(CacheUsable()) ==>
        cache == Some(file.config) && cacheTimestamp == now && !cacheDirty
    {
      if file.Missing? {
        return None;
      }
      if cache.Some? && cacheTimestamp >= fileMtime && !cacheDirty {
        return cache;
      }
      if file.Unreadable? {
        return None;
      }
      cache := Some(file.config);
      cacheTimestamp := now;
      cacheDirty := false;
      return Some(file.config);
    }

    /** _save_config: write the file and refresh the cache. */
    method SaveConfig(config: Config, now: int)
      modifies this
      ensures Valid()
      ensures file == Stored(config) && fileMtime == now
      ensures cache == Some(config) && cacheTimestamp == now && !cacheDirty
    {
      file := Stored(config);
      fileMtime := now;
      cache := Some(config);
      cacheTimestamp := now;
      cacheDirty := false;
    }

    /** is_first_launch */
    method IsFirstLaunch() returns (first: bool)
      ensures first <==> file.Missing?
    {
      first := file.Missing?;
    }

    /** setup_password: a fresh config with a clean counter. */
    method SetupPassword(pin: string, question: string, answer: string, pinSalt: nat, answerSalt: nat, now: int)
      returns (ok: bool)
      modifies this
      ensures Valid() && ok
      ensures file == Stored(NewConfig(pin, question, answer, pinSalt, answerSalt))
    {
      SaveConfig(NewConfig(pin, question, answer, pinSalt, answerSalt), now);
      ok := true;
    }

    /** verify_pin */
    method VerifyPin(pin: string, now: int) returns (ok: bool, status: string)
      requires Valid()
      modifies this
      ensures Valid()
      ensures FileConfig(old(file)).None? ==> !ok && status == "error" && file == old(file)
      ensures FileConfig(old(file)).Some? ==>
        var (s, c') := AttemptPin(old(file).config, pin, now);
        && ok == (s == Success) && status == StatusText(s)
        && (s == Locked ==> file == old(file))
        && (s != Locked ==> file == Stored(c'))
    {
      var config := LoadConfig(now);
      if config.None? {
        return false, "error";
      }
      var (s, c') := AttemptPin(config.value, pin, now);
      if s != Locked {
        SaveConfig(c', now);
      }
      ok, status := s == Success, StatusText(s);
    }

    /** verify_security_answer */
    method VerifySecurityAnswer(answer: string, now: int) returns (ok: bool)
      requires Valid()
      modifies this`cache, this`cacheTimestamp, this`cacheDirty
      ensures Valid()
      ensures ok <==> old(file).Stored? && AnswerAccepted(old(file).config, answer)
    {
      var config := LoadConfig(now);
      ok := config.Some? && AnswerAccepted(config.value, answer);
    }

    /** get_security_question */
    method GetSecurityQuestion(now: int) returns (q: Option<string>)
      requires Valid()
      modifies this`cache, this`cacheTimestamp, this`cacheDirty
      ensures Valid()
      ensures old(file).Stored? ==> q == Some(old(file).config.securityQuestion)
      ensures !old(file).Stored? ==> q == None
    {
      var config := LoadConfig(now);
      if config.None? {
        return None;
      }
      q := Some(config.value.securityQuestion);
    }

    /** reset_password */
    method ResetPassword(newPin: string, salt: nat, now: int) returns (ok: bool)
      requires Valid()
      modifies this
      ensures Valid()
      ensures ok <==> old(file).Stored?
      ensures ok ==> file == Stored(ResetConfig(old(file).config, newPin, salt))
      ensures !ok ==> file == old(file)
    {
      var config := LoadConfig(now);
      if config.None? {
        return false;
      }
      SaveConfig(ResetConfig(config.value, newPin, salt), now);
      ok := true;
    }

    /** get_lockout_time_remaining */
    method GetLockoutTimeRemaining(now: int) returns (secs: int)
      requires Valid()
      modifies this`cache, this`cacheTimestamp, this`cacheDirty
      ensures Valid()
      ensures old(file).Stored? ==> secs == LockoutRemaining(old(file).config, now)
      ensures !old(file).Stored? ==> secs == 0
    {
      var config := LoadConfig(now);
      if config.None? {
        return 0;
      }
      secs := LockoutRemaining(config.value, now);
    }

    /** clear_cache: the next load goes to the file. */
    method ClearCache()
      modifies this`cache, this`cacheTimestamp, this`cacheDirty
      ensures Valid() && !CacheUsable()
      ensures cache == None && cacheTimestamp == 0 && cacheDirty
    {
      cache := None;
      cacheTimestamp := 0;
      cacheDirty := true;
    }
  }
}
