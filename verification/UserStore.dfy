// Users, the credential cache in front of the password check, and the rate limit gate:
// internal/auth/auth.go.
module UserStore {
  import opened Common
  import RL = RateLimiting

  datatype User = User(username: string, passwordHash: string, rateLimitRPM: int, enabled: bool)

  /** What the users file holds; the two flags say whether every CIDR entry of a list parses. */
  datatype Config = Config(users: seq<User>, whitelistOk: bool, adminsOk: bool)

  /** The library calls: strings.ToLower, hex of SHA-256, and the bcrypt comparison. */
  datatype Library = Library(lower: string -> string, digest: string -> string, matches: (string, string) -> bool)

  const DIGEST_LENGTH := 64

  /** The digest has a fixed length, and its hex form has no colon. */
  ghost predicate GoodDigest(lib: Library) {
    forall p :: |lib.digest(p)| == DIGEST_LENGTH && ':' !in lib.digest(p)
  }

  /** No two of the given passwords have the same digest. (No digest of fixed length can be free of
      collisions on all passwords.) */
  ghost predicate CollisionFree(lib: Library, passwords: set<string>) {
    forall p, q :: p in passwords && q in passwords && lib.digest(p) == lib.digest(q) ==> p == q
  }

  const CRED_CACHE_TTL: real := 300.0

  datatype Entry = Entry(user: User, validUntil: real)

  function CacheKey(lib: Library, username: string, password: string): string {
    lib.lower(username) + ":" + lib.digest(password)
  }

  /** Equal cache keys mean equal lower-cased names and equal digests, and nothing more. */
  lemma CacheKeysEqualIff(lib: Library, u: string, p: string, v: string, q: string)
    requires GoodDigest(lib)
    ensures CacheKey(lib, u, p) == CacheKey(lib, v, q) <==>
            lib.lower(u) == lib.lower(v) && lib.digest(p) == lib.digest(q)
  {
    var key, n := CacheKey(lib, u, p), |lib.lower(u)|;
    assert |key| == n + 1 + DIGEST_LENGTH && lib.lower(u) == key[..n] && lib.digest(p) == key[n + 1..];
    if key == CacheKey(lib, v, q) {
      assert |key| == |lib.lower(v)| + 1 + DIGEST_LENGTH;
      assert lib.lower(v) == key[..n] && lib.digest(q) == key[n + 1..];
    }
  }

  /** The two assumptions on the digest can be met together: here for any two passwords. */
  lemma DigestsExist(p: string, q: string) returns (lib: Library)
    requires p != q
    ensures GoodDigest(lib) && CollisionFree(lib, {p, q})
  {
    var zeros, ones := seq(DIGEST_LENGTH, _ => '0'), seq(DIGEST_LENGTH, _ => '1');
    assert zeros[0] != ones[0];
    lib := Library(s => s, s => if s == p then zeros else ones, (hash, s) => hash == s);
  }

  // ------------------------------------------------------------------- the store

  datatype Store = Store(users: map<string, User>, cache: map<string, Entry>)

  /** The uncached answer: the record under the lower-cased name, if its hash matches. */
  function Check(lib: Library, users: map<string, User>, username: string, password: string): Option<User> {
    var name := lib.lower(username);
    if name in users && lib.matches(users[name].passwordHash, password) then Some(users[name]) else None
  }

  predicate Hit(cache: map<string, Entry>, key: string, now: real) {
    key in cache && now < cache[key].validUntil
  }

  datatype Op =
    | Validate(username: string, password: string, now: real, filledAt: real)
    | Load(cfg: Config)
    | Invalidate(username: string)
    | InvalidateAll

  function Answer(lib: Library, s: Store, op: Op): Option<User>
    requires op.Validate?
  {
    var key := CacheKey(lib, op.username, op.password);
    if Hit(s.cache, key, op.now) then Some(s.cache[key].user)
    else Check(lib, s.users, op.username, op.password)
  }

  function UsersOf(lib: Library, users: seq<User>): map<string, User> {
    if users == [] then map[] else
      var last := users[|users| - 1];
      var init := UsersOf(lib, users[..|users| - 1]);
      if last.enabled then init[lib.lower(last.username) := last] else init
  }

  ghost predicate IsLast(lib: Library, users: seq<User>, name: string, i: nat) {
    && i < |users| && users[i].enabled && lib.lower(users[i].username) == name
    && forall j :: i < j < |users| && users[j].enabled ==> lib.lower(users[j].username) != name
  }

  /** The map has exactly the lower-cased names of enabled entries, the last entry winning. */
  lemma {:induction false} UsersOfKeepsLast(lib: Library, users: seq<User>, name: string)
    ensures name in UsersOf(lib, users) <==> exists i: nat :: IsLast(lib, users, name, i)
    ensures forall i: nat :: IsLast(lib, users, name, i) ==>
              name in UsersOf(lib, users) && UsersOf(lib, users)[name] == users[i]
  {
    if users != [] {
      var k := |users| - 1;
      var init := users[..k];
      UsersOfKeepsLast(lib, init, name);
      if users[k].enabled && lib.lower(users[k].username) == name {
        assert IsLast(lib, users, name, k);
      } else {
        assert forall i: nat :: IsLast(lib, users, name, i) <==> IsLast(lib, init, name, i);
      }
    }
  }

  function After(lib: Library, s: Store, op: Op): Store {
    match op
    case Validate(u, p, now, filledAt) =>
      var key := CacheKey(lib, u, p);
      var user := Check(lib, s.users, u, p);
      if !Hit(s.cache, key, now) && user.Some?
      then s.(cache := s.cache[key := Entry(user.value, filledAt + CRED_CACHE_TTL)])
      else s
    case Load(cfg) =>
      Store(UsersOf(lib, cfg.users), if cfg.whitelistOk && cfg.adminsOk then map[] else s.cache)
    case Invalidate(username) =>
      s.(cache := map key | key in s.cache && !(lib.lower(username) + ":" <= key) :: s.cache[key])
    case InvalidateAll => s.(cache := map[])
  }

  // ---------------------------------------------------- cached and uncached agree

  /** Every cached login of the given passwords is what the check gives now. */
  ghost predicate Coherent(lib: Library, s: Store, passwords: set<string>) {
    forall u, p :: p in passwords && CacheKey(lib, u, p) in s.cache ==>
      Check(lib, s.users, u, p) == Some(s.cache[CacheKey(lib, u, p)].user)
  }

  /** An operation of the runs below: its password is among those given, and a load succeeds. */
  ghost predicate InRun(op: Op, passwords: set<string>) {
    && (op.Validate? ==> op.password in passwords)
    && (op.Load? ==> op.cfg.whitelistOk && op.cfg.adminsOk)
  }

  lemma CoherentStep(lib: Library, s: Store, op: Op, passwords: set<string>)
    requires GoodDigest(lib) && CollisionFree(lib, passwords)
    requires Coherent(lib, s, passwords) && InRun(op, passwords)
    ensures Coherent(lib, After(lib, s, op), passwords)
  {
    var t := After(lib, s, op);
    forall u, p | p in passwords && CacheKey(lib, u, p) in t.cache
      ensures Check(lib, t.users, u, p) == Some(t.cache[CacheKey(lib, u, p)].user)
    {
      if op.Validate? {
        CacheKeysEqualIff(lib, u, p, op.username, op.password);
      }
    }
  }

  ghost function AfterAll(lib: Library, s: Store, ops: seq<Op>): Store {
    if ops == [] then s else After(lib, AfterAll(lib, s, ops[..|ops| - 1]), ops[|ops| - 1])
  }

  lemma {:induction false} CoherentRun(lib: Library, s: Store, ops: seq<Op>, passwords: set<string>)
    requires GoodDigest(lib) && CollisionFree(lib, passwords) && Coherent(lib, s, passwords)
    requires forall o :: o in ops ==> InRun(o, passwords)
    ensures Coherent(lib, AfterAll(lib, s, ops), passwords)
  {
    if ops != [] {
      var init := ops[..|ops| - 1];
      CoherentRun(lib, s, init, passwords);
      CoherentStep(lib, AfterAll(lib, s, init), ops[|ops| - 1], passwords);
    }
  }

  /** Whole calls, successful loads: after any run the cache changes no answer. */
  lemma CacheIsTransparent(lib: Library, s: Store, ops: seq<Op>, op: Op, passwords: set<string>)
    requires GoodDigest(lib) && CollisionFree(lib, passwords) && Coherent(lib, s, passwords)
    requires op.Validate? && InRun(op, passwords) && forall o :: o in ops ==> InRun(o, passwords)
    ensures var t := AfterAll(lib, s, ops);
            Answer(lib, t, op) == Check(lib, t.users, op.username, op.password)
  {
    CoherentRun(lib, s, ops, passwords);
  }

  // ------------------------------------------------------- what a success rests on

  /** The user map holds this record for the name, and its hash matches the password. */
  ghost predicate Vouches(lib: Library, users: map<string, User>, username: string, password: string, user: User) {
    var name := lib.lower(username);
    name in users && users[name] == user && lib.matches(user.passwordHash, password)
  }

  /** A login that is not cached succeeds with the record that vouches for it, and is refused if and
      only if its name has no record or the record's hash does not match. */
  lemma UncachedAnswers(lib: Library, s: Store, u: string, p: string, now: real, filledAt: real)
    requires !Hit(s.cache, CacheKey(lib, u, p), now)
    ensures var answer := Answer(lib, s, Validate(u, p, now, filledAt));
            && (answer == None <==>
                lib.lower(u) !in s.users || !lib.matches(s.users[lib.lower(u)].passwordHash, p))
            && (forall user :: answer == Some(user) <==> Vouches(lib, s.users, u, p, user))
  {
  }

  /** Call k of the run looked this record up and filled the entry with it. */
  ghost predicate FilledBy(lib: Library, s: Store, ops: seq<Op>, k: nat, key: string, entry: Entry) {
    && k < |ops| && ops[k].Validate? && key == CacheKey(lib, ops[k].username, ops[k].password)
    && Vouches(lib, AfterAll(lib, s, ops[..k]).users, ops[k].username, ops[k].password, entry.user)
    && entry.validUntil == ops[k].filledAt + 300.0
  }

  lemma {:induction false} EntriesAreFilled(lib: Library, s: Store, ops: seq<Op>, key: string) returns (k: nat)
    requires s.cache == map[] && key in AfterAll(lib, s, ops).cache
    ensures FilledBy(lib, s, ops, k, key, AfterAll(lib, s, ops).cache[key])
  {
    var n := |ops| - 1;
    var init, last, before := ops[..n], ops[n], AfterAll(lib, s, ops[..n]);
    if last.Validate? && key == CacheKey(lib, last.username, last.password)
       && !Hit(before.cache, key, last.now) && Check(lib, before.users, last.username, last.password).Some? {
      k := n;
    } else {
      k := EntriesAreFilled(lib, s, init, key);
      assert init[..k] == ops[..k];
    }
  }

  /** After any whole calls, loads that fail among them, a login succeeds only on a record that was
      under its name when it, or an earlier call less than five minutes before, looked; the record's
      hash matched that call's password, which has the same digest. */
  lemma SuccessRestsOnRecord(lib: Library, s: Store, ops: seq<Op>, u: string, p: string, now: real, filledAt: real)
    returns (k: nat, password: string)
    requires GoodDigest(lib) && s.cache == map[]
    requires Answer(lib, AfterAll(lib, s, ops), Validate(u, p, now, filledAt)).Some?
    ensures var user := Answer(lib, AfterAll(lib, s, ops), Validate(u, p, now, filledAt)).value;
            k <= |ops| && Vouches(lib, AfterAll(lib, s, ops[..k]).users, u, password, user)
    ensures lib.digest(password) == lib.digest(p)
    ensures k < |ops| ==> ops[k].Validate? && ops[k].password == password && now < ops[k].filledAt + 300.0
    ensures k == |ops| ==> password == p
  {
    var t, key := AfterAll(lib, s, ops), CacheKey(lib, u, p);
    if Hit(t.cache, key, now) {
      k := EntriesAreFilled(lib, s, ops, key);
      password := ops[k].password;
      CacheKeysEqualIff(lib, u, p, ops[k].username, password);
    } else {
      UncachedAnswers(lib, t, u, p, now, filledAt);
      k, password := |ops|, p;
      assert ops[..k] == ops;
    }
  }

  // ----------------------------------------------------------------- failed loads

  /** A load that fails after replacing the users leaves the cache alone. It changes what a login is
      answered from the right answer to a wrong one exactly if the login was cached and the new file
      decides it differently. */
  lemma FailedLoadAgreesIff(lib: Library, s: Store, cfg: Config, op: Op)
    requires op.Validate? && Coherent(lib, s, {op.password}) && !(cfg.whitelistOk && cfg.adminsOk)
    ensures var t := After(lib, s, Load(cfg));
            Answer(lib, t, op) == Check(lib, t.users, op.username, op.password) <==>
              || !Hit(s.cache, CacheKey(lib, op.username, op.password), op.now)
              || Check(lib, s.users, op.username, op.password) ==
                 Check(lib, UsersOf(lib, cfg.users), op.username, op.password)
  {
  }

  /** For one, a removed user's password goes on working. */
  lemma FailedLoadKeepsCache(lib: Library, user: User, password: string, now: real)
    requires user.enabled && lib.matches(user.passwordHash, password)
    ensures var s := AfterAll(lib, Store(map[], map[]), [Load(Config([user], true, true)),
                       Validate(user.username, password, now, now), Load(Config([], false, true))]);
            && Answer(lib, s, Validate(user.username, password, now, now)) == Some(user)
            && Check(lib, s.users, user.username, password) == None
  {
    var op := Validate(user.username, password, now, now);
    var s1 := After(lib, Store(map[], map[]), Load(Config([user], true, true)));
    assert UsersOf(lib, [user]) == map[lib.lower(user.username) := user];
    var s2 := After(lib, s1, op);
    var s3 := After(lib, s2, Load(Config([], false, true)));
    var ops := [Load(Config([user], true, true)), op, Load(Config([], false, true))];
    assert ops[..2][..1] == [Load(Config([user], true, true))];
    assert AfterAll(lib, Store(map[], map[]), ops[..2][..1]) == s1;
    assert AfterAll(lib, Store(map[], map[]), ops[..2]) == s2;
  }

  /** Invalidate(name) drops a cached login exactly for that user and for names starting "name:". */
  lemma InvalidateDrops(lib: Library, s: Store, name: string, u: string, p: string)
    requires GoodDigest(lib) && CacheKey(lib, u, p) in s.cache
    ensures CacheKey(lib, u, p) !in After(lib, s, Invalidate(name)).cache <==>
            lib.lower(u) == lib.lower(name) || lib.lower(name) + ":" <= lib.lower(u)
  {
    var key, prefix, n := CacheKey(lib, u, p), lib.lower(name) + ":", |lib.lower(u)|;
    assert key[..n] == lib.lower(u) && key[n] == ':' && key[n + 1..] == lib.digest(p);
    if |prefix| <= n {
      assert key[..|prefix|] == lib.lower(u)[..|prefix|];
    } else if |prefix| == n + 1 {
      assert key[..n + 1] == lib.lower(u) + ":";
    } else if |prefix| <= |key| {
      assert key[|prefix| - 1] == lib.digest(p)[|prefix| - n - 2];
      assert key[|prefix| - 1] != ':';
    }
  }

  // -------------------------------------------------------------- limits on load

  function LimitsOf(limits: map<string, RL.Bucket>, users: seq<User>, now: real): map<string, RL.Bucket> {
    if users == [] then limits else
      var last := users[|users| - 1];
      var init := LimitsOf(limits, users[..|users| - 1], now);
      if last.enabled && last.rateLimitRPM > 0
      then init[last.username := RL.FullBucket(last.rateLimitRPM, now)] else init
  }

  /** A name that no other enabled entry of the file shares gets exactly its own fresh bucket. */
  lemma {:induction false} LoadSetsLimit(limits: map<string, RL.Bucket>, users: seq<User>, now: real, i: nat)
    requires i < |users| && users[i].enabled && users[i].rateLimitRPM > 0
    requires forall j :: 0 <= j < |users| && j != i && users[j].enabled ==> users[j].username != users[i].username
    ensures users[i].username in LimitsOf(limits, users, now)
    ensures LimitsOf(limits, users, now)[users[i].username] == RL.FullBucket(users[i].rateLimitRPM, now)
  {
    if i < |users| - 1 {
      LoadSetsLimit(limits, users[..|users| - 1], now, i);
    }
  }

  ghost predicate SpelledWithLimit(users: seq<User>, name: string, i: nat) {
    i < |users| && users[i].enabled && users[i].rateLimitRPM > 0 && users[i].username == name
  }

  /** A load adds to what is metered exactly the spellings that its file gives a limit. The user map is
      keyed by lower-cased names and the limiter is not, so a known user under another spelling is
      unmetered. */
  lemma {:induction false} MeteredIffSpelled(limits: map<string, RL.Bucket>, users: seq<User>, now: real, name: string)
    ensures name in LimitsOf(limits, users, now) <==>
            name in limits || exists i: nat :: SpelledWithLimit(users, name, i)
  {
    if users != [] {
      var k := |users| - 1;
      MeteredIffSpelled(limits, users[..k], now, name);
      assert forall i: nat :: i < k ==> (SpelledWithLimit(users, name, i) <==> SpelledWithLimit(users[..k], name, i));
      if SpelledWithLimit(users, name, k) {
        assert name in LimitsOf(limits, users, now);
      }
    }
  }

  /** So no call in any history is refused under a spelling that no file loaded so far gave a limit. */
  lemma OtherSpellingNeverRefused(limits: map<string, RL.Bucket>, users: seq<User>, now: real, name: string,
                                  calls: seq<RL.Event>)
    requires name !in limits && forall i: nat :: !SpelledWithLimit(users, name, i)
    requires RL.LimitUntouched(calls, name)
    ensures forall answer :: answer in RL.Answers(LimitsOf(limits, users, now), calls, name) ==> answer
  {
    MeteredIffSpelled(limits, users, now, name);
    RL.UnlimitedUser(LimitsOf(limits, users, now), calls, name);
  }

  // -------------------------------------------------------------------- the class

  class UserStore {
    const lib: Library
    var users: map<string, User>
    var credCache: map<string, Entry>
    const rateLimiter: RL.RateLimiter

    ghost predicate Valid()
      reads this, rateLimiter
    {
      rateLimiter.Valid()
    }

    ghost function View(): Store
      reads this
    {
      Store(users, credCache)
    }

    constructor (lib: Library)
      ensures Valid() && fresh(rateLimiter) && fresh(rateLimiter.buckets.Values)
      ensures this.lib == lib && View() == Store(map[], map[]) && rateLimiter.View() == map[]
    {
      this.lib := lib;
      users, credCache := map[], map[];
      rateLimiter := new RL.RateLimiter();
    }

    /** The file's contents are absent when it cannot be read or parsed; then nothing changes. */
    method LoadFromFile(file: Option<Config>, now: real) returns (ok: bool)
      requires Valid()
      modifies this, rateLimiter
      ensures Valid() && fresh(rateLimiter.buckets.Values - old(rateLimiter.buckets.Values))
      ensures ok <==> file.Some? && file.value.whitelistOk && file.value.adminsOk
      ensures View() == if file.Some? then After(lib, old(View()), Load(file.value)) else old(View())
      ensures rateLimiter.View() ==
              if file.Some? then LimitsOf(old(rateLimiter.View()), file.value.users, now) else old(rateLimiter.View())
      ensures ok ==> forall passwords :: Coherent(lib, View(), passwords)
    {
      if file.None? {
        return false;
      }
      var cfg := file.value;
      users := map[];
      var i := 0;
      while i < |cfg.users|
        invariant 0 <= i <= |cfg.users|
        invariant Valid() && fresh(rateLimiter.buckets.Values - old(rateLimiter.buckets.Values))
        invariant users == UsersOf(lib, cfg.users[..i]) && credCache == old(credCache)
        invariant rateLimiter.View() == LimitsOf(old(rateLimiter.View()), cfg.users[..i], now)
      {
        var user := cfg.users[i];
        if user.enabled {
          users := users[lib.lower(user.username) := user];
          if user.rateLimitRPM > 0 {
            rateLimiter.SetLimit(user.username, user.rateLimitRPM, now);
          }
        }
        i := i + 1;
        assert cfg.users[..i][..i - 1] == cfg.users[..i - 1];
      }
      assert cfg.users[..i] == cfg.users;
      if !cfg.whitelistOk {
        return false;
      }
      if !cfg.adminsOk {
        return false;
      }
      InvalidateAllCredentials();
      return true;
    }

    /** With loads that succeed, the answer is the uncached one and stays so. */
    method ValidateCredentials(username: string, password: string, now: real, filledAt: real,
                               ghost passwords: set<string>)
      returns (user: Option<User>)
      modifies this`credCache
      ensures user == Answer(lib, old(View()), Validate(username, password, now, filledAt))
      ensures View() == After(lib, old(View()), Validate(username, password, now, filledAt))
      ensures GoodDigest(lib) && CollisionFree(lib, passwords) && password in passwords &&
              old(Coherent(lib, View(), passwords)) ==>
                user == Check(lib, users, username, password) && Coherent(lib, View(), passwords)
    {
      ghost var op := Validate(username, password, now, filledAt);
      if GoodDigest(lib) && CollisionFree(lib, passwords) && password in passwords
         && Coherent(lib, View(), passwords) {
        CoherentStep(lib, View(), op, passwords);
      }
      var cacheKey := lib.lower(username) + ":" + lib.digest(password);
      if cacheKey in credCache {
        var entry := credCache[cacheKey];
        if now < entry.validUntil {
          return Some(entry.user);
        }
      }
      if lib.lower(username) !in users {
        return None;
      }
      var found := users[lib.lower(username)];
      if !lib.matches(found.passwordHash, password) {
        return None;
      }
      credCache := credCache[cacheKey := Entry(found, filledAt + CRED_CACHE_TTL)];
      return Some(found);
    }

    method InvalidateUser(username: string)
      modifies this`credCache
      ensures View() == After(lib, old(View()), Invalidate(username))
    {
      var prefix := lib.lower(username) + ":";
      var todo := credCache.Keys;
      while todo != {}
        invariant todo <= credCache.Keys <= old(credCache.Keys)
        invariant forall key :: key in credCache ==> credCache[key] == old(credCache)[key]
        invariant forall key :: key in old(credCache) && key !in todo ==> (key in credCache <==> !(prefix <= key))
        decreases todo
      {
        var key :| key in todo;
        if prefix <= key {
          credCache := credCache - {key};
        }
        todo := todo - {key};
      }
    }

    method InvalidateAllCredentials()
      modifies this`credCache
      ensures View() == After(lib, old(View()), InvalidateAll)
    {
      credCache := map[];
    }

    /** Unknown users are refused, users without a limit let through, the rest metered as spelled. */
    method CheckRateLimit(username: string, now: real) returns (ok: bool)
      requires Valid()
      modifies if username in rateLimiter.buckets then {rateLimiter.buckets[username]} else {}
      ensures ok <==>
              && lib.lower(username) in users
              && (users[lib.lower(username)].rateLimitRPM > 0 ==>
                    RL.Answer(old(rateLimiter.View()), username, now))
      ensures rateLimiter.View() ==
              if lib.lower(username) in users && users[lib.lower(username)].rateLimitRPM > 0
              then RL.After(old(rateLimiter.View()), RL.Event.Allow(username, now))
              else old(rateLimiter.View())
    {
      if lib.lower(username) !in users {
        return false;
      }
      if users[lib.lower(username)].rateLimitRPM <= 0 {
        return true;
      }
      ok := rateLimiter.Allow(username, now);
    }
  }
}
