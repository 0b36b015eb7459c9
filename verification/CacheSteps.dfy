// ValidateCredentials split at its lock boundaries, with loads and invalidations in between:
// internal/auth/auth.go.
module CacheSteps {
  import opened Common
  import opened UserStore

  /** Progress of one ValidateCredentials call; began is the time it was made. */
  datatype Thread =
    | Idle
    | Peeking(u: string, p: string, began: real)
    | Looking(u: string, p: string, began: real)
    | Comparing(u: string, p: string, began: real, user: User, seen: real)
    | Filling(u: string, p: string, began: real, user: User, seen: real)

  /** The validation that put an entry in the cache. */
  datatype Origin = Origin(u: string, p: string, began: real, seen: real, filled: real)

  datatype Success = Success(u: string, p: string, user: User, at: real, origin: Origin)

  /** loading: LoadFromFile holds the users lock. origins and successes only record history. */
  datatype System = System(
    users: map<string, User>, cache: map<string, Entry>, loading: bool, now: real,
    threads: seq<Thread>, origins: map<string, Origin>, successes: seq<Success>)

  datatype Event =
    | Tick(d: real)
    | Call(i: nat, u: string, p: string)
    | Peek(i: nat)                         // credCacheMu, read
    | Look(i: nat)                         // mu, read
    | Compare(i: nat)                      // no lock
    | Fill(i: nat)                         // credCacheMu, write
    | Swap(users: map<string, User>)       // a load takes mu and replaces the users
    | Clear                                // ... and succeeds: drops the cache, releases mu
    | Abort                                // ... or fails: releases mu
    | DropUser(name: string)
    | DropAll

  ghost predicate Enabled(s: System, e: Event) {
    match e
    case Tick(d) => d >= 0.0
    case Call(i, _, _) => i < |s.threads| && s.threads[i].Idle?
    case Peek(i) => i < |s.threads| && s.threads[i].Peeking?
    case Look(i) => i < |s.threads| && s.threads[i].Looking? && !s.loading
    case Compare(i) => i < |s.threads| && s.threads[i].Comparing?
    case Fill(i) => i < |s.threads| && s.threads[i].Filling?
    case Swap(_) => !s.loading
    case Clear => s.loading
    case Abort => s.loading
    case DropUser(_) => true
    case DropAll => true
  }

  ghost function OriginOf(s: System, key: string): Origin {
    if key in s.origins then s.origins[key] else Origin("", "", 0.0, 0.0, 0.0)
  }

  ghost function Go(s: System, i: nat, t: Thread): System
    requires i < |s.threads|
  {
    s.(threads := s.threads[i := t])
  }

  ghost function Next(lib: Library, s: System, e: Event): System
    requires Enabled(s, e)
  {
    match e
    case Tick(d) => s.(now := s.now + d)
    case Call(i, u, p) => Go(s, i, Peeking(u, p, s.now))
    case Peek(i) =>
      var t := s.threads[i];
      var key := CacheKey(lib, t.u, t.p);
      if Hit(s.cache, key, s.now) then
        Go(s, i, Idle).(successes := s.successes + [Success(t.u, t.p, s.cache[key].user, s.now, OriginOf(s, key))])
      else Go(s, i, Looking(t.u, t.p, t.began))
    case Look(i) =>
      var t := s.threads[i];
      var name := lib.lower(t.u);
      Go(s, i, if name in s.users then Comparing(t.u, t.p, t.began, s.users[name], s.now) else Idle)
    case Compare(i) =>
      var t := s.threads[i];
      Go(s, i, if lib.matches(t.user.passwordHash, t.p) then Filling(t.u, t.p, t.began, t.user, t.seen) else Idle)
    case Fill(i) =>
      var t := s.threads[i];
      var key := CacheKey(lib, t.u, t.p);
      var origin := Origin(t.u, t.p, t.began, t.seen, s.now);
      Go(s, i, Idle).(
        cache := s.cache[key := Entry(t.user, s.now + CRED_CACHE_TTL)], origins := s.origins[key := origin],
        successes := s.successes + [Success(t.u, t.p, t.user, s.now, origin)])
    case Swap(users) => s.(users := users, loading := true)
    case Clear => s.(cache := map[], loading := false)
    case Abort => s.(loading := false)
    case DropUser(name) => s.(cache := After(lib, Store(s.users, s.cache), Invalidate(name)).cache)
    case DropAll => s.(cache := map[])
  }

  // Runs grow at the end, so that the states of a run are those of its prefixes.

  ghost predicate IsRun(lib: Library, s: System, es: seq<Event>)
    decreases |es|, 0
  {
    es == [] || (var init := es[..|es| - 1]; IsRun(lib, s, init) && Enabled(Final(lib, s, init), es[|es| - 1]))
  }

  ghost function Final(lib: Library, s: System, es: seq<Event>): System
    requires IsRun(lib, s, es)
    decreases |es|, 1
  {
    if es == [] then s else Next(lib, Final(lib, s, es[..|es| - 1]), es[|es| - 1])
  }

  ghost predicate Start(s: System) {
    && s.cache == map[] && s.origins == map[] && s.successes == [] && !s.loading
    && forall i :: 0 <= i < |s.threads| ==> s.threads[i].Idle?
  }

  lemma {:induction false} PrefixRuns(lib: Library, s: System, es: seq<Event>, k: nat)
    requires IsRun(lib, s, es) && k <= |es|
    ensures IsRun(lib, s, es[..k])
  {
    if k < |es| {
      PrefixRuns(lib, s, es[..|es| - 1], k);
      assert es[..|es| - 1][..k] == es[..k];
    } else {
      assert es[..k] == es;
    }
  }

  /** After k steps of the run the time was t and the user map held this record under this name. */
  ghost predicate WasThere(lib: Library, s: System, es: seq<Event>, k: nat, name: string, user: User, t: real) {
    && k <= |es| && IsRun(lib, s, es[..k])
    && var mid := Final(lib, s, es[..k]); mid.now == t && name in mid.users && mid.users[name] == user
  }

  ghost predicate Backed(lib: Library, s: System, es: seq<Event>, name: string, user: User, t: real) {
    exists k: nat :: WasThere(lib, s, es, k, name, user, t)
  }

  lemma BackedStays(lib: Library, s: System, es: seq<Event>, name: string, user: User, t: real)
    requires es != [] && Backed(lib, s, es[..|es| - 1], name, user, t)
    ensures Backed(lib, s, es, name, user, t)
  {
    var init := es[..|es| - 1];
    var k: nat :| WasThere(lib, s, init, k, name, user, t);
    assert init[..k] == es[..k];
    assert WasThere(lib, s, es, k, name, user, t);
  }

  // -------------------------------------------------------------------- invariant

  /** The passwords of a run's calls. */
  ghost function Passwords(es: seq<Event>): set<string> {
    set e | e in es && e.Call? :: e.p
  }

  ghost predicate ThreadOk(lib: Library, s: System, es: seq<Event>, t: Thread, now: real) {
    match t
    case Idle => true
    case Peeking(_, p, began) => began <= now && p in Passwords(es)
    case Looking(_, p, began) => began <= now && p in Passwords(es)
    case Comparing(u, p, began, user, seen) =>
      began <= seen <= now && Backed(lib, s, es, lib.lower(u), user, seen) && p in Passwords(es)
    case Filling(u, p, began, user, seen) =>
      && began <= seen <= now && Backed(lib, s, es, lib.lower(u), user, seen) && p in Passwords(es)
      && lib.matches(user.passwordHash, p)
  }

  ghost predicate EntryOk(lib: Library, s: System, es: seq<Event>, key: string, entry: Entry, o: Origin, now: real) {
    && key == CacheKey(lib, o.u, o.p) && o.began <= o.seen <= o.filled <= now
    && entry.validUntil == o.filled + CRED_CACHE_TTL && o.p in Passwords(es)
    && Backed(lib, s, es, lib.lower(o.u), entry.user, o.seen) && lib.matches(entry.user.passwordHash, o.p)
  }

  ghost predicate SuccessOk(lib: Library, s: System, es: seq<Event>, r: Success) {
    && Backed(lib, s, es, lib.lower(r.u), r.user, r.origin.seen) && lib.matches(r.user.passwordHash, r.origin.p)
    && lib.digest(r.p) == lib.digest(r.origin.p) && r.p in Passwords(es) && r.origin.p in Passwords(es)
    && r.origin.began <= r.origin.seen <= r.origin.filled <= r.at
    && r.origin.seen >= r.at - CRED_CACHE_TTL - (r.origin.filled - r.origin.began)
  }

  ghost predicate Inv(lib: Library, s: System, es: seq<Event>)
    requires IsRun(lib, s, es)
  {
    var t := Final(lib, s, es);
    && (forall i :: 0 <= i < |t.threads| ==> ThreadOk(lib, s, es, t.threads[i], t.now))
    && (forall key :: key in t.cache ==>
          key in t.origins && EntryOk(lib, s, es, key, t.cache[key], t.origins[key], t.now))
    && (forall r :: r in t.successes ==> SuccessOk(lib, s, es, r))
  }

  lemma PasswordsGrow(es: seq<Event>)
    requires es != []
    ensures Passwords(es[..|es| - 1]) <= Passwords(es)
    ensures es[|es| - 1].Call? ==> es[|es| - 1].p in Passwords(es)
  {
    var init, e := es[..|es| - 1], es[|es| - 1];
    assert forall x :: x in init ==> x in es;
    assert e in es;
  }

  lemma ThreadStays(lib: Library, s: System, es: seq<Event>, t: Thread, now: real, later: real)
    requires es != [] && ThreadOk(lib, s, es[..|es| - 1], t, now) && now <= later
    ensures ThreadOk(lib, s, es, t, later)
  {
    PasswordsGrow(es);
    if t.Comparing? || t.Filling? {
      BackedStays(lib, s, es, lib.lower(t.u), t.user, t.seen);
    }
  }

  lemma EntryStays(lib: Library, s: System, es: seq<Event>, key: string, entry: Entry, o: Origin,
                   now: real, later: real)
    requires es != [] && EntryOk(lib, s, es[..|es| - 1], key, entry, o, now) && now <= later
    ensures EntryOk(lib, s, es, key, entry, o, later)
  {
    PasswordsGrow(es);
    BackedStays(lib, s, es, lib.lower(o.u), entry.user, o.seen);
  }

  lemma ThreadStep(lib: Library, s: System, e: Event, i: nat)
    requires Enabled(s, e) && i < |s.threads|
    ensures var n := Next(lib, s, e);
            && n.now >= s.now && |n.threads| == |s.threads|
            && var t, t' := s.threads[i], n.threads[i];
            || t' == t || t' == Idle
            || (e.Call? && t' == Peeking(e.u, e.p, s.now))
            || (t.Peeking? && t' == Looking(t.u, t.p, t.began))
            || (t.Looking? && lib.lower(t.u) in s.users && n.now == s.now &&
                t' == Comparing(t.u, t.p, t.began, s.users[lib.lower(t.u)], s.now))
            || (t.Comparing? && lib.matches(t.user.passwordHash, t.p) &&
                t' == Filling(t.u, t.p, t.began, t.user, t.seen))
  {
  }

  lemma TimeStep(lib: Library, s: System, e: Event)
    requires Enabled(s, e)
    ensures Next(lib, s, e).now >= s.now && |Next(lib, s, e).threads| == |s.threads|
  {
  }

  ghost predicate Fills(lib: Library, s: System, e: Event, key: string) {
    e.Fill? && e.i < |s.threads| && s.threads[e.i].Filling? &&
    key == CacheKey(lib, s.threads[e.i].u, s.threads[e.i].p)
  }

  lemma EntryStep(lib: Library, s: System, e: Event, key: string)
    requires Enabled(s, e) && key in Next(lib, s, e).cache
    ensures var n := Next(lib, s, e);
            if Fills(lib, s, e, key) then
              var t := s.threads[e.i];
              && n.now == s.now && n.cache[key] == Entry(t.user, s.now + CRED_CACHE_TTL)
              && key in n.origins && n.origins[key] == Origin(t.u, t.p, t.began, t.seen, s.now)
            else
              && key in s.cache && n.cache[key] == s.cache[key]
              && (key in s.origins ==> key in n.origins && n.origins[key] == s.origins[key])
  {
  }

  /** What a step itself produces: the moved thread, the filled entry, the new success. */
  lemma NewThreadOk(lib: Library, s: System, es: seq<Event>, i: nat)
    requires es != [] && IsRun(lib, s, es) && IsRun(lib, s, es[..|es| - 1]) && Inv(lib, s, es[..|es| - 1])
    requires i < |Final(lib, s, es[..|es| - 1]).threads| == |Final(lib, s, es).threads|
    ensures ThreadOk(lib, s, es, Final(lib, s, es).threads[i], Final(lib, s, es).now)
  {
    var init, e := es[..|es| - 1], es[|es| - 1];
    var before, after := Final(lib, s, init), Final(lib, s, es);
    var t, t' := before.threads[i], after.threads[i];
    ThreadStep(lib, before, e, i);
    PasswordsGrow(es);
    assert ThreadOk(lib, s, init, t, before.now);
    ThreadStays(lib, s, es, t, before.now, after.now);
    if t.Looking? && t'.Comparing? {
      assert init == es[..|init|];
      assert WasThere(lib, s, es, |init|, lib.lower(t.u), t'.user, before.now);
    }
  }

  lemma NewEntryOk(lib: Library, s: System, es: seq<Event>, key: string)
    requires es != [] && IsRun(lib, s, es) && IsRun(lib, s, es[..|es| - 1]) && Inv(lib, s, es[..|es| - 1])
    requires key in Final(lib, s, es).cache
    ensures var t := Final(lib, s, es);
            key in t.origins && EntryOk(lib, s, es, key, t.cache[key], t.origins[key], t.now)
  {
    var init, e := es[..|es| - 1], es[|es| - 1];
    var before, after := Final(lib, s, init), Final(lib, s, es);
    EntryStep(lib, before, e, key);
    if Fills(lib, before, e, key) {
      assert ThreadOk(lib, s, init, before.threads[e.i], before.now);
      ThreadStays(lib, s, es, before.threads[e.i], before.now, after.now);
    } else {
      TimeStep(lib, before, e);
      EntryStays(lib, s, es, key, before.cache[key], before.origins[key], before.now, after.now);
    }
  }

  lemma HitOk(lib: Library, s: System, es: seq<Event>, r: Success, key: string, entry: Entry, o: Origin)
    requires GoodDigest(lib) && EntryOk(lib, s, es, key, entry, o, r.at) && key == CacheKey(lib, r.u, r.p)
    requires r.at < entry.validUntil && r.user == entry.user && r.origin == o && r.p in Passwords(es)
    ensures SuccessOk(lib, s, es, r)
  {
    CacheKeysEqualIff(lib, r.u, r.p, o.u, o.p);
  }

  lemma NewSuccessOk(lib: Library, s: System, es: seq<Event>, r: Success)
    requires GoodDigest(lib)
    requires es != [] && IsRun(lib, s, es) && IsRun(lib, s, es[..|es| - 1]) && Inv(lib, s, es[..|es| - 1])
    requires r in Final(lib, s, es).successes
    ensures SuccessOk(lib, s, es, r)
  {
    var init, e := es[..|es| - 1], es[|es| - 1];
    var before, after := Final(lib, s, init), Final(lib, s, es);
    PasswordsGrow(es);
    if r in before.successes {
      BackedStays(lib, s, es, lib.lower(r.u), r.user, r.origin.seen);
    } else if e.Fill? {
      ThreadStays(lib, s, es, before.threads[e.i], before.now, after.now);
    } else {
      var key := CacheKey(lib, r.u, r.p);
      assert ThreadOk(lib, s, init, before.threads[e.i], before.now);
      EntryStays(lib, s, es, key, before.cache[key], before.origins[key], before.now, after.now);
      HitOk(lib, s, es, r, key, before.cache[key], before.origins[key]);
    }
  }

  lemma {:induction false} InvHolds(lib: Library, s: System, es: seq<Event>)
    requires GoodDigest(lib) && Start(s) && IsRun(lib, s, es)
    ensures Inv(lib, s, es)
  {
    if es != [] {
      InvHolds(lib, s, es[..|es| - 1]);
      var t := Final(lib, s, es);
      forall i | 0 <= i < |t.threads|
        ensures ThreadOk(lib, s, es, t.threads[i], t.now)
      {
        var before := Final(lib, s, es[..|es| - 1]);
        TimeStep(lib, before, es[|es| - 1]);
        NewThreadOk(lib, s, es, i);
      }
      forall key | key in t.cache
        ensures key in t.origins && EntryOk(lib, s, es, key, t.cache[key], t.origins[key], t.now)
      {
        NewEntryOk(lib, s, es, key);
      }
      forall r | r in t.successes
        ensures SuccessOk(lib, s, es, r)
      {
        NewSuccessOk(lib, s, es, r);
      }
    }
  }

  /** Bounded staleness: every success, at any time, rests on a record that was in the user map no
      longer ago than the cache lifetime plus the validation that filled the entry. The record matched
      a password of the run with the same digest, which is the password itself unless two passwords
      of the run collide. */
  lemma BoundedStaleness(lib: Library, s: System, es: seq<Event>, r: Success) returns (k: nat)
    requires GoodDigest(lib) && Start(s) && IsRun(lib, s, es) && r in Final(lib, s, es).successes
    ensures r.origin.p in Passwords(es) && lib.digest(r.p) == lib.digest(r.origin.p)
    ensures lib.matches(r.user.passwordHash, r.origin.p)
    ensures CollisionFree(lib, Passwords(es)) ==> lib.matches(r.user.passwordHash, r.p)
    ensures k <= |es| && IsRun(lib, s, es[..k])
    ensures var mid := Final(lib, s, es[..k]);
            && lib.lower(r.u) in mid.users && mid.users[lib.lower(r.u)] == r.user
            && mid.now >= r.at - 300.0 - (r.origin.filled - r.origin.began)
  {
    InvHolds(lib, s, es);
    assert SuccessOk(lib, s, es, r);
    k :| WasThere(lib, s, es, k, lib.lower(r.u), r.user, r.origin.seen);
  }

  lemma RunSnoc(lib: Library, s: System, es: seq<Event>, t: System, e: Event) returns (longer: seq<Event>)
    requires IsRun(lib, s, es) && Final(lib, s, es) == t && Enabled(t, e)
    ensures longer == es + [e] && IsRun(lib, s, longer) && Final(lib, s, longer) == Next(lib, t, e)
  {
    longer := es + [e];
    assert longer[..|longer| - 1] == es;
  }

  // --------------------------------------------- whole calls are runs of the steps

  /** A step that thread i takes in a call of u and p, or time passing. */
  predicate OwnStep(e: Event, i: nat, u: string, p: string) {
    match e
    case Tick(_) => true
    case Call(j, v, q) => j == i && v == u && q == p
    case Peek(j) => j == i
    case Look(j) => j == i
    case Compare(j) => j == i
    case Fill(j) => j == i
    case _ => false
  }

  /** A run that thread i's call of u and p has added to. */
  ghost predicate OwnRun(lib: Library, s: System, es: seq<Event>, longer: seq<Event>, i: nat, u: string, p: string) {
    && es <= longer && IsRun(lib, s, longer)
    && forall k :: |es| <= k < |longer| ==> OwnStep(longer[k], i, u, p)
  }

  lemma OwnSnoc(lib: Library, s: System, es: seq<Event>, now: seq<Event>, e: Event, i: nat, u: string, p: string)
    returns (longer: seq<Event>)
    requires IsRun(lib, s, es) && OwnRun(lib, s, es, now, i, u, p) && OwnStep(e, i, u, p)
    requires Enabled(Final(lib, s, now), e)
    ensures OwnRun(lib, s, es, longer, i, u, p) && Final(lib, s, longer) == Next(lib, Final(lib, s, now), e)
  {
    longer := RunSnoc(lib, s, now, Final(lib, s, now), e);
  }

  /** t became n by a whole call that ended with this answer: the cache is what the class's method
      leaves, the thread is back where it was, and a success is recorded just when there is a user. */
  ghost predicate Called(lib: Library, t: System, n: System, u: string, p: string, d: real) {
    var op := Validate(u, p, t.now, t.now + d);
    && n.users == t.users && n.cache == After(lib, Store(t.users, t.cache), op).cache
    && n.threads == t.threads && !n.loading && t.now <= n.now <= t.now + d
    && match Answer(lib, Store(t.users, t.cache), op)
       case None => n.successes == t.successes
       case Some(user) =>
         exists r :: n.successes == t.successes + [r] && r.u == u && r.p == p && r.user == user && r.at == n.now
  }

  lemma PeekEnds(lib: Library, t: System, m: System, i: nat, u: string, p: string, d: real)
    requires i < |t.threads| && t.threads[i] == Idle && !t.loading && d >= 0.0
    requires m == Go(t, i, Peeking(u, p, t.now)) && Hit(t.cache, CacheKey(lib, u, p), t.now)
    ensures Called(lib, t, Next(lib, m, Peek(i)), u, p, d)
  {
    var n := Next(lib, m, Peek(i));
    assert m.threads[i := Idle] == t.threads;
    var r := n.successes[|n.successes| - 1];
    assert n.successes == t.successes + [r];
  }

  lemma FillEnds(lib: Library, t: System, m: System, i: nat, u: string, p: string, d: real, user: User)
    requires i < |t.threads| && t.threads[i] == Idle && !t.loading && d >= 0.0
    requires !Hit(t.cache, CacheKey(lib, u, p), t.now) && Check(lib, t.users, u, p) == Some(user)
    requires m == Go(t, i, Filling(u, p, t.now, user, t.now)).(now := t.now + d)
    ensures Called(lib, t, Next(lib, m, Fill(i)), u, p, d)
  {
    var n := Next(lib, m, Fill(i));
    assert m.threads[i := Idle] == t.threads;
    var r := n.successes[|n.successes| - 1];
    assert n.successes == t.successes + [r];
  }

  /** The cache is asked: a hit ends the call, a miss leads on to the user map. */
  lemma CallPeeks(lib: Library, s: System, es: seq<Event>, i: nat, u: string, p: string, d: real)
    returns (longer: seq<Event>)
    requires IsRun(lib, s, es) && d >= 0.0
    requires var t := Final(lib, s, es); i < |t.threads| && t.threads[i] == Idle && !t.loading
    ensures OwnRun(lib, s, es, longer, i, u, p)
    ensures var t, n := Final(lib, s, es), Final(lib, s, longer);
            if Hit(t.cache, CacheKey(lib, u, p), t.now) then Called(lib, t, n, u, p, d)
            else n == Go(t, i, Looking(u, p, t.now))
  {
    var t := Final(lib, s, es);
    longer := OwnSnoc(lib, s, es, es, Call(i, u, p), i, u, p);
    var m := Final(lib, s, longer);
    longer := OwnSnoc(lib, s, es, longer, Peek(i), i, u, p);
    if Hit(t.cache, CacheKey(lib, u, p), t.now) {
      PeekEnds(lib, t, m, i, u, p, d);
    } else {
      assert m.threads[i := Looking(u, p, t.now)] == t.threads[i := Looking(u, p, t.now)];
    }
  }

  /** The user map is asked and the hash compared. */
  lemma CallCompares(lib: Library, s: System, es: seq<Event>, now: seq<Event>, i: nat, u: string, p: string)
    returns (longer: seq<Event>)
    requires IsRun(lib, s, es) && OwnRun(lib, s, es, now, i, u, p)
    requires var t := Final(lib, s, es);
             && i < |t.threads| && t.threads[i] == Idle && !t.loading
             && Final(lib, s, now) == Go(t, i, Looking(u, p, t.now))
    ensures OwnRun(lib, s, es, longer, i, u, p)
    ensures var t, n := Final(lib, s, es), Final(lib, s, longer);
            match Check(lib, t.users, u, p)
            case None => n == t
            case Some(user) => n == Go(t, i, Filling(u, p, t.now, user, t.now))
  {
    var t, name := Final(lib, s, es), lib.lower(u);
    longer := OwnSnoc(lib, s, es, now, Look(i), i, u, p);
    assert Final(lib, s, now).threads[i := Idle] == t.threads;
    if name in t.users {
      var m := Final(lib, s, longer);
      assert m == Go(t, i, Comparing(u, p, t.now, t.users[name], t.now));
      longer := OwnSnoc(lib, s, es, longer, Compare(i), i, u, p);
      assert m.threads[i := Idle] == t.threads;
    }
  }

  lemma CallFills(lib: Library, s: System, es: seq<Event>, now: seq<Event>, i: nat, u: string, p: string, d: real,
                  user: User)
    returns (longer: seq<Event>)
    requires IsRun(lib, s, es) && OwnRun(lib, s, es, now, i, u, p) && d >= 0.0
    requires var t := Final(lib, s, es);
             && i < |t.threads| && t.threads[i] == Idle && !t.loading
             && !Hit(t.cache, CacheKey(lib, u, p), t.now) && Check(lib, t.users, u, p) == Some(user)
             && Final(lib, s, now) == Go(t, i, Filling(u, p, t.now, user, t.now))
    ensures OwnRun(lib, s, es, longer, i, u, p) && Called(lib, Final(lib, s, es), Final(lib, s, longer), u, p, d)
  {
    longer := OwnSnoc(lib, s, es, now, Tick(d), i, u, p);
    FillEnds(lib, Final(lib, s, es), Final(lib, s, longer), i, u, p, d, user);
    longer := OwnSnoc(lib, s, es, longer, Fill(i), i, u, p);
  }

  /** After any run, an idle thread and no load under way: the thread's own steps, uninterrupted, do
      what a whole call of the class does, with the same answer and the same cache afterwards. */
  lemma WholeCallIsRun(lib: Library, s: System, es: seq<Event>, i: nat, u: string, p: string, d: real)
    returns (longer: seq<Event>)
    requires IsRun(lib, s, es) && d >= 0.0
    requires var t := Final(lib, s, es); i < |t.threads| && t.threads[i] == Idle && !t.loading
    ensures OwnRun(lib, s, es, longer, i, u, p) && Called(lib, Final(lib, s, es), Final(lib, s, longer), u, p, d)
  {
    var t := Final(lib, s, es);
    longer := CallPeeks(lib, s, es, i, u, p, d);
    if !Hit(t.cache, CacheKey(lib, u, p), t.now) {
      longer := CallCompares(lib, s, es, longer, i, u, p);
      var user := Check(lib, t.users, u, p);
      if user.Some? {
        longer := CallFills(lib, s, es, longer, i, u, p, d, user.value);
      }
    }
  }

  /** Likewise a whole load is a swap of the users and then a clear or an abort, and the two
      invalidations are one step each. */
  lemma WholeLoadIsRun(lib: Library, s: System, es: seq<Event>, cfg: Config) returns (longer: seq<Event>)
    requires IsRun(lib, s, es) && !Final(lib, s, es).loading
    ensures longer ==
            es + [Swap(UsersOf(lib, cfg.users))] + [if cfg.whitelistOk && cfg.adminsOk then Clear else Abort]
    ensures IsRun(lib, s, longer)
    ensures var t, n := Final(lib, s, es), Final(lib, s, longer);
            !n.loading && Store(n.users, n.cache) == After(lib, Store(t.users, t.cache), Load(cfg))
  {
    longer := RunSnoc(lib, s, es, Final(lib, s, es), Swap(UsersOf(lib, cfg.users)));
    longer := RunSnoc(lib, s, longer, Final(lib, s, longer),
                      if cfg.whitelistOk && cfg.adminsOk then Clear else Abort);
  }

  lemma InvalidationsAreSteps(lib: Library, t: System, name: string)
    ensures var n := Next(lib, t, DropUser(name));
            Store(n.users, n.cache) == After(lib, Store(t.users, t.cache), Invalidate(name))
    ensures var n := Next(lib, t, DropAll);
            Store(n.users, n.cache) == After(lib, Store(t.users, t.cache), InvalidateAll)
  {
  }

  /** So the age bound holds for the answers of the class, whatever threads ran before. */
  lemma AnswersAreFresh(lib: Library, s: System, es: seq<Event>, i: nat, u: string, p: string, d: real, user: User)
    returns (longer: seq<Event>, r: Success, k: nat)
    requires GoodDigest(lib) && Start(s) && IsRun(lib, s, es) && d >= 0.0
    requires var t := Final(lib, s, es);
             && i < |t.threads| && t.threads[i] == Idle && !t.loading
             && Answer(lib, Store(t.users, t.cache), Validate(u, p, t.now, t.now + d)) == Some(user)
    ensures OwnRun(lib, s, es, longer, i, u, p) && k <= |longer| && IsRun(lib, s, longer[..k])
    ensures lib.digest(r.origin.p) == lib.digest(p)
    ensures var mid := Final(lib, s, longer[..k]);
            && Vouches(lib, mid.users, u, r.origin.p, user)
            && mid.now >= Final(lib, s, es).now - 300.0 - (r.origin.filled - r.origin.began)
  {
    longer := WholeCallIsRun(lib, s, es, i, u, p, d);
    var t, n := Final(lib, s, es), Final(lib, s, longer);
    r :| n.successes == t.successes + [r] && r.u == u && r.p == p && r.user == user && r.at == n.now;
    assert n.successes[|t.successes|] == r;
    k := BoundedStaleness(lib, s, longer, r);
  }

  // ------------------------------------------------- when the cache is right now

  ghost predicate HoldsRecord(t: Thread) {
    t.Comparing? || t.Filling?
  }

  /** The record the thread read is still the one in the map. */
  ghost predicate Current(lib: Library, users: map<string, User>, t: Thread)
    requires HoldsRecord(t)
  {
    lib.lower(t.u) in users && users[lib.lower(t.u)] == t.user
  }

  /** No load replaces the users while a thread holds a record, and no load fails. */
  ghost predicate Quiet(lib: Library, s: System, es: seq<Event>)
    requires IsRun(lib, s, es)
  {
    es == [] ||
    (var init, e := es[..|es| - 1], es[|es| - 1];
     && Quiet(lib, s, init) && !e.Abort?
     && (e.Swap? ==> forall t :: t in Final(lib, s, init).threads ==> !HoldsRecord(t)))
  }

  ghost predicate EntryRight(lib: Library, t: System, key: string)
    requires key in t.cache
  {
    && key in t.origins && key == CacheKey(lib, t.origins[key].u, t.origins[key].p)
    && Check(lib, t.users, t.origins[key].u, t.origins[key].p) == Some(t.cache[key].user)
  }

  ghost predicate AllRight(lib: Library, t: System) {
    if t.loading then forall x :: x in t.threads ==> !HoldsRecord(x)
    else
      && (forall x :: x in t.threads && HoldsRecord(x) ==>
            Current(lib, t.users, x) && (x.Filling? ==> lib.matches(x.user.passwordHash, x.p)))
      && (forall key :: key in t.cache ==> EntryRight(lib, t, key))
  }

  lemma ThreadsStayRight(lib: Library, t: System, e: Event, x: Thread)
    requires AllRight(lib, t) && Enabled(t, e) && !e.Abort? && x in Next(lib, t, e).threads && HoldsRecord(x)
    requires e.Swap? ==> forall y :: y in t.threads ==> !HoldsRecord(y)
    ensures var n := Next(lib, t, e);
            && !n.loading && Current(lib, n.users, x) && (x.Filling? ==> lib.matches(x.user.passwordHash, x.p))
  {
    var n := Next(lib, t, e);
    var i: nat :| i < |n.threads| && n.threads[i] == x;
    ThreadStep(lib, t, e, i);
    assert t.threads[i] in t.threads;
  }

  lemma EntriesStayRight(lib: Library, t: System, e: Event, key: string)
    requires AllRight(lib, t) && Enabled(t, e) && !e.Abort? && !Next(lib, t, e).loading && key in Next(lib, t, e).cache
    ensures EntryRight(lib, Next(lib, t, e), key)
  {
    EntryStep(lib, t, e, key);
    if Fills(lib, t, e, key) {
      assert t.threads[e.i] in t.threads;
    }
  }

  lemma {:induction false} QuietRunsStayRight(lib: Library, s: System, es: seq<Event>)
    requires Start(s) && IsRun(lib, s, es) && Quiet(lib, s, es)
    ensures AllRight(lib, Final(lib, s, es))
  {
    if es != [] {
      var init, e := es[..|es| - 1], es[|es| - 1];
      QuietRunsStayRight(lib, s, init);
      var t, n := Final(lib, s, init), Final(lib, s, es);
      forall x | x in n.threads && HoldsRecord(x)
        ensures !n.loading && Current(lib, n.users, x) && (x.Filling? ==> lib.matches(x.user.passwordHash, x.p))
      {
        ThreadsStayRight(lib, t, e, x);
      }
      if !n.loading {
        forall key | key in n.cache
          ensures EntryRight(lib, n, key)
        {
          EntriesStayRight(lib, t, e, key);
        }
      }
    }
  }

  /** If no load replaces the users between a thread's look-up and its fill and every load succeeds,
      then whenever no load is under way every cached login is what the check gives now. */
  lemma QuietRunsAreCoherent(lib: Library, s: System, es: seq<Event>)
    requires GoodDigest(lib) && CollisionFree(lib, Passwords(es))
    requires Start(s) && IsRun(lib, s, es) && Quiet(lib, s, es) && !Final(lib, s, es).loading
    ensures var t := Final(lib, s, es); Coherent(lib, Store(t.users, t.cache), Passwords(es))
  {
    InvHolds(lib, s, es);
    QuietRunsStayRight(lib, s, es);
    var t := Final(lib, s, es);
    forall u, p | p in Passwords(es) && CacheKey(lib, u, p) in t.cache
      ensures Check(lib, t.users, u, p) == Some(t.cache[CacheKey(lib, u, p)].user)
    {
      var key := CacheKey(lib, u, p);
      assert EntryRight(lib, t, key) && EntryOk(lib, s, es, key, t.cache[key], t.origins[key], t.now);
      CacheKeysEqualIff(lib, u, p, t.origins[key].u, t.origins[key].p);
    }
  }

  /** And conversely, in any run: a fill leaves a right entry exactly if the record it read is still
      the one in the map. One that straddles a load which changed the record leaves a wrong one. */
  lemma FillIsRightIff(lib: Library, s: System, es: seq<Event>, i: nat)
    requires GoodDigest(lib) && Start(s) && IsRun(lib, s, es) && Enabled(Final(lib, s, es), Fill(i))
    ensures var t := Final(lib, s, es).threads[i];
            var n := Next(lib, Final(lib, s, es), Fill(i));
            var key := CacheKey(lib, t.u, t.p);
            && key in n.cache
            && (Check(lib, n.users, t.u, t.p) == Some(n.cache[key].user) <==>
                Current(lib, Final(lib, s, es).users, t))
  {
    InvHolds(lib, s, es);
    assert ThreadOk(lib, s, es, Final(lib, s, es).threads[i], Final(lib, s, es).now);
  }

  // ------------------------------------------------------- the staleness bound is met

  /** At no time after zero did the run see a record under this name. */
  ghost predicate GoneAfterZero(lib: Library, s: System, es: seq<Event>, name: string) {
    forall k :: 0 <= k <= |es| && IsRun(lib, s, es[..k]) && Final(lib, s, es[..k]).now > 0.0 ==>
      name !in Final(lib, s, es[..k]).users
  }

  lemma GoneSnoc(lib: Library, s: System, es: seq<Event>, t: System, e: Event, name: string)
    returns (longer: seq<Event>)
    requires IsRun(lib, s, es) && Final(lib, s, es) == t && Enabled(t, e) && GoneAfterZero(lib, s, es, name)
    requires Next(lib, t, e).now > 0.0 ==> name !in Next(lib, t, e).users
    ensures IsRun(lib, s, longer) && Final(lib, s, longer) == Next(lib, t, e) && GoneAfterZero(lib, s, longer, name)
  {
    longer := RunSnoc(lib, s, es, t, e);
    forall k | 0 <= k <= |longer| && IsRun(lib, s, longer[..k]) && Final(lib, s, longer[..k]).now > 0.0
      ensures name !in Final(lib, s, longer[..k]).users
    {
      if k <= |es| {
        assert longer[..k] == es[..k];
      } else {
        assert longer[..k] == longer;
      }
    }
  }

  /** One idle thread and one user, at time zero. */
  ghost function Alone(name: string, user: User): System {
    System(map[name := user], map[], false, 0.0, [Idle], map[], [])
  }

  /** A validation reads the record. */
  lemma RecordRead(lib: Library, user: User, u: string, p: string) returns (es: seq<Event>)
    ensures var s := Alone(lib.lower(u), user);
            && IsRun(lib, s, es) && GoneAfterZero(lib, s, es, lib.lower(u))
            && Final(lib, s, es) == s.(threads := [Comparing(u, p, 0.0, user, 0.0)])
  {
    var name, s := lib.lower(u), Alone(lib.lower(u), user);
    es := GoneSnoc(lib, s, [], s, Call(0, u, p), name);
    es := GoneSnoc(lib, s, es, s.(threads := [Peeking(u, p, 0.0)]), Peek(0), name);
    es := GoneSnoc(lib, s, es, s.(threads := [Looking(u, p, 0.0)]), Look(0), name);
  }

  /** A load removes the user before the validation has compared, at the same instant. */
  lemma RecordRemoved(lib: Library, user: User, u: string, p: string) returns (es: seq<Event>)
    requires lib.matches(user.passwordHash, p)
    ensures var s := Alone(lib.lower(u), user);
            && IsRun(lib, s, es) && GoneAfterZero(lib, s, es, lib.lower(u))
            && Final(lib, s, es) == s.(users := map[], threads := [Filling(u, p, 0.0, user, 0.0)])
  {
    var name, s, t := lib.lower(u), Alone(lib.lower(u), user), Comparing(u, p, 0.0, user, 0.0);
    es := RecordRead(lib, user, u, p);
    es := GoneSnoc(lib, s, es, s.(threads := [t]), Swap(map[]), name);
    es := GoneSnoc(lib, s, es, s.(users := map[], threads := [t], loading := true), Clear, name);
    es := GoneSnoc(lib, s, es, s.(users := map[], threads := [t]), Compare(0), name);
  }

  /** ... and the fill comes at time v. */
  lemma LateFill(lib: Library, user: User, u: string, p: string, v: real) returns (s: System, es: seq<Event>)
    requires lib.matches(user.passwordHash, p) && v >= 0.0
    ensures Start(s) && IsRun(lib, s, es) && GoneAfterZero(lib, s, es, lib.lower(u))
    ensures var key, o := CacheKey(lib, u, p), Origin(u, p, 0.0, 0.0, v);
            Final(lib, s, es) == System(map[], map[key := Entry(user, v + CRED_CACHE_TTL)], false, v, [Idle],
                                        map[key := o], [Success(u, p, user, v, o)])
  {
    s := Alone(lib.lower(u), user);
    var waiting := s.(users := map[], threads := [Filling(u, p, 0.0, user, 0.0)]);
    es := RecordRemoved(lib, user, u, p);
    es := GoneSnoc(lib, s, es, waiting, Tick(v), lib.lower(u));
    es := GoneSnoc(lib, s, es, waiting.(now := v), Fill(0), lib.lower(u));
  }

  /** Nor can the bound be "a record in the map now": a fill that straddles a successful reload puts
      back a user the reload removed. */
  lemma ReloadCanBeOutlived(lib: Library, user: User, u: string, p: string)
    returns (s: System, es: seq<Event>)
    requires lib.matches(user.passwordHash, p)
    ensures Start(s) && IsRun(lib, s, es)
    ensures var t := Final(lib, s, es);
            && t.users == map[] && !t.loading
            && Hit(t.cache, CacheKey(lib, u, p), t.now) && t.cache[CacheKey(lib, u, p)].user == user
  {
    s, es := LateFill(lib, user, u, p, 0.0);
  }

  /** ... and d after that the login is answered from the cache. */
  lemma LateHit(lib: Library, s: System, es: seq<Event>, u: string, p: string, v: real, d: real, user: User, o: Origin)
    returns (longer: seq<Event>)
    requires IsRun(lib, s, es) && GoneAfterZero(lib, s, es, lib.lower(u)) && 0.0 <= d < 300.0
    requires Final(lib, s, es) == System(map[], map[CacheKey(lib, u, p) := Entry(user, v + CRED_CACHE_TTL)], false, v,
                                         [Idle], map[CacheKey(lib, u, p) := o], [Success(u, p, user, v, o)])
    ensures IsRun(lib, s, longer) && GoneAfterZero(lib, s, longer, lib.lower(u))
    ensures Success(u, p, user, v + d, o) in Final(lib, s, longer).successes
  {
    var name, t := lib.lower(u), Final(lib, s, es);
    longer := GoneSnoc(lib, s, es, t, Tick(d), name);
    longer := GoneSnoc(lib, s, longer, t.(now := v + d), Call(0, u, p), name);
    var m := t.(now := v + d, threads := [Peeking(u, p, v + d)]);
    longer := GoneSnoc(lib, s, longer, m, Peek(0), name);
    var r := Success(u, p, user, v + d, o);
    assert Next(lib, m, Peek(0)).successes == [Success(u, p, user, v, o), r];
    assert Next(lib, m, Peek(0)).successes[1] == r;
  }

  /** BoundedStaleness cannot be improved: for every validation length v and every d below the cache
      lifetime there is a run with a success whose record left the map d + v before it, at time zero. */
  lemma StalenessIsMet(lib: Library, user: User, u: string, p: string, v: real, d: real)
    returns (s: System, es: seq<Event>, r: Success)
    requires lib.matches(user.passwordHash, p) && v >= 0.0 && 0.0 <= d < 300.0
    ensures Start(s) && IsRun(lib, s, es) && r in Final(lib, s, es).successes
    ensures r.u == u && r.p == p && r.user == user && r.origin.filled - r.origin.began == v && r.at == v + d
    ensures GoneAfterZero(lib, s, es, lib.lower(u))
  {
    s, es := LateFill(lib, user, u, p, v);
    var o := Origin(u, p, 0.0, 0.0, v);
    es := LateHit(lib, s, es, u, p, v, d, user, o);
    r := Success(u, p, user, v + d, o);
  }
}
