/** Concurrent key lookups. Each lookup reads the clock, reads the cache under one lock,
    fetches with no lock held, and installs under another lock; the steps of any number of
    lookups interleave freely, and an older fetch may overwrite a newer one. */
module KeysetRuns {
  import opened Wrappers
  import opened Text
  import opened Crypto
  import opened Verify
  import opened Trust
  import opened Signing

  /** The cached keys (none when empty), with two times the code does not store: `since`, the
      reading captured by the lookup that installed them (or the start-up time), and `seen`,
      when the server gave them out. */
  datatype Cache = Cache(trusted: KeyMap, expiresAt: Time, since: Time, seen: Time)

  datatype Phase =
    | Started(now: Time)                         // the clock has been read
    | Fetching(now: Time)                        // the cache was stale
    | Fetched(now: Time, keys: KeyMap, seen: Time)
    | Returned(now: Time, keys: KeyMap, since: Time, seen: Time, own: bool)
    | Failed(now: Time)

  datatype Config = Config(clock: Time, cache: Cache, lookups: map<nat, Phase>)

  datatype Action =
    | Tick(to: Time)
    | Begin(id: nat)
    | CheckCache(id: nat)
    | Answer(id: nat)      // the server answers with what it publishes at this moment
    | FetchFails(id: nat)
    | Install(id: nat)

  /** What the server publishes at each moment, the cache lifetime, and the start-up state. */
  datatype World = World(published: Time -> SigningKeyset, ttl: Time, start: Time, bootstrap: KeyMap)

  ghost function Do(w: World, c: Config, a: Action): Config {
    match a
    case Tick(to) => if to > c.clock then c.(clock := to) else c
    case Begin(id) => if id in c.lookups then c else c.(lookups := c.lookups[id := Started(c.clock)])
    case CheckCache(id) =>
      if !(id in c.lookups && c.lookups[id].Started?) then c else c.(lookups := c.lookups[id := Checked(c.cache, c.lookups[id].now)])
    case Answer(id) =>
      if !(id in c.lookups && c.lookups[id].Fetching?) then c
      else
        var answer := TrustedMap(w.published(c.clock));
        var now := c.lookups[id].now;
        c.(lookups := c.lookups[id := if answer.None? then Failed(now) else Fetched(now, answer.value, c.clock)])
    case FetchFails(id) =>
      if !(id in c.lookups && c.lookups[id].Fetching?) then c else c.(lookups := c.lookups[id := Failed(c.lookups[id].now)])
    case Install(id) =>
      if !(id in c.lookups && c.lookups[id].Fetched?) then c
      else
        var f := c.lookups[id];
        c.(cache := Cache(f.keys, f.now + w.ttl, f.now, f.seen),
           lookups := c.lookups[id := Returned(f.now, f.keys, f.now, f.seen, true)])
  }

  /** Fresh keys are returned, otherwise a fetch begins. */
  function Checked(cache: Cache, now: Time): Phase {
    if cache.trusted == map[] || now >= cache.expiresAt then Fetching(now)
    else Returned(now, cache.trusted, cache.since, cache.seen, false)
  }

  function Initial(w: World): Config {
    Config(w.start, Cache(w.bootstrap, w.start + w.ttl, w.start, w.start), map[])
  }

  ghost function Run(w: World, actions: seq<Action>, n: nat): Config
    requires n <= |actions|
  {
    if n == 0 then Initial(w) else Do(w, Run(w, actions, n - 1), actions[n - 1])
  }

  // ---------- The cache object takes these steps ----------

  /** The object holds what the cache of the step machine holds. */
  ghost predicate Mirrors(source: KeysetSource, cache: Cache)
    reads source, source.trusted
  {
    source.Cached() == cache.trusted && (source.trusted != null ==> source.expiresAt == cache.expiresAt)
  }

  /** A new object is where the step machine starts, with what it kept of its bootstrap. */
  method Start(w: World, bootstrap: KeyTable?, now: Time) returns (source: KeysetSource)
    requires w.ttl > 0 && now == w.start
    requires if bootstrap == null then w.bootstrap == map[] else Normal(w.bootstrap) && bootstrap.entries == w.bootstrap
    ensures source.Valid() && source.ttl == w.ttl && Mirrors(source, Initial(w).cache)
  {
    source := new KeysetSource(true, bootstrap, w.ttl, now);
    if bootstrap != null { CopyOfNormal(bootstrap.entries, source.Cached()); }
  }

  /** The section under the read lock is the step CheckCache, whatever other lookups have done
      before it. */
  method CheckOnObject(source: KeysetSource, w: World, ghost c: Config, now: Time, id: nat) returns (out: KeyTable?)
    requires source.Valid() && Mirrors(source, c.cache) && id in c.lookups && c.lookups[id] == Started(now)
    ensures var d := Do(w, c, CheckCache(id));
            && Mirrors(source, d.cache)
            && (if out == null then d.lookups[id] == Fetching(now)
                else d.lookups[id].Returned? && out.entries == d.lookups[id].keys)
  {
    out := source.CachedIfFresh(now);
  }

  /** The section under the write lock is the step Install, even if another lookup has
      installed newer keys since this one fetched. */
  method InstallOnObject(source: KeysetSource, w: World, ghost c: Config, keys: KeyTable, now: Time, id: nat)
    requires source.Valid() && source.ttl == w.ttl && Mirrors(source, c.cache)
    requires id in c.lookups && c.lookups[id].Fetched? && c.lookups[id].now == now && c.lookups[id].keys == keys.entries
    requires keys.entries != map[] && Normal(keys.entries)
    modifies source
    ensures source.Valid() && Mirrors(source, Do(w, c, Install(id)).cache)
  {
    hide Normal;
    source.Replace(keys, now);
  }

  /** The steps of one lookup that nothing interleaves with. */
  ghost function Alone(w: World, c: Config, id: nat, fails: bool): Config {
    var checked := Do(w, Do(w, c, Begin(id)), CheckCache(id));
    Do(w, Do(w, checked, if fails then FetchFails(id) else Answer(id)), Install(id))
  }

  /** A lookup on the object, against a server that answers as in `w`: it returns and leaves
      behind exactly what those steps do. */
  method Lookup(source: KeysetSource, w: World, ghost c: Config, now: Time, id: nat, fails: bool) returns (out: KeyTable?)
    requires source.Valid() && source.hasFetcher && source.ttl == w.ttl && Mirrors(source, c.cache)
    requires id !in c.lookups && now == c.clock
    modifies source
    ensures var d := Alone(w, c, id, fails);
            && source.Valid() && Mirrors(source, d.cache) && id in d.lookups
            && (if out == null then d.lookups[id].Failed? else d.lookups[id].Returned? && out.entries == d.lookups[id].keys)
  {
    hide TrustedMap;
    out := source.TrustedKeys(now, if fails then None else Some(w.published(now)));
  }

  // ---------- Bounded staleness ----------

  /** These keys were the bootstrap, or published at `seen`. */
  ghost predicate Origin(w: World, keys: KeyMap, since: Time, seen: Time) {
    || (keys == w.bootstrap && since == seen == w.start)
    || TrustedMap(w.published(seen)) == Some(keys)
  }

  ghost predicate GoodCache(w: World, cache: Cache, clock: Time) {
    && cache.expiresAt == cache.since + w.ttl
    && cache.since <= cache.seen <= clock
    && Origin(w, cache.trusted, cache.since, cache.seen)
  }

  /** What is true of a lookup in each phase; for a returned one, where its keys came from. */
  ghost predicate GoodPhase(w: World, p: Phase, clock: Time) {
    && w.start <= p.now <= clock
    && match p
       case Fetched(now, keys, seen) => now <= seen <= clock && TrustedMap(w.published(seen)) == Some(keys)
       case Returned(now, keys, since, seen, own) =>
         && since <= seen <= clock && keys != map[]
         && Origin(w, keys, since, seen)
         && (if own then since == now && TrustedMap(w.published(seen)) == Some(keys) else now < since + w.ttl)
       case _ => true
  }

  ghost predicate GoodConfig(w: World, c: Config) {
    && w.start <= c.clock
    && GoodCache(w, c.cache, c.clock)
    && forall id :: id in c.lookups ==> GoodPhase(w, c.lookups[id], c.clock)
  }

  lemma DoKeepsGood(w: World, c: Config, a: Action)
    requires GoodConfig(w, c)
    ensures GoodConfig(w, Do(w, c, a)) && c.clock <= Do(w, c, a).clock
  {
    hide Origin, TrustedMap;
    if a.Answer? && a.id in c.lookups { assert GoodPhase(w, c.lookups[a.id], c.clock); }
    if a.Install? && a.id in c.lookups && c.lookups[a.id].Fetched? {
      assert GoodPhase(w, c.lookups[a.id], c.clock);
      assert Origin(w, c.lookups[a.id].keys, c.lookups[a.id].now, c.lookups[a.id].seen) by { PublishedOrigin(w, c.lookups[a.id]); }
    }
  }

  lemma PublishedOrigin(w: World, f: Phase)
    requires f.Fetched? && TrustedMap(w.published(f.seen)) == Some(f.keys)
    ensures Origin(w, f.keys, f.now, f.seen)
  {
  }

  lemma {:induction false} RunGood(w: World, actions: seq<Action>, n: nat)
    requires n <= |actions|
    ensures GoodConfig(w, Run(w, actions, n))
  {
    hide TrustedMap, Do, GoodPhase;
    if n > 0 {
      hide GoodConfig, Initial;
      RunGood(w, actions, n - 1);
      DoKeepsGood(w, Run(w, actions, n - 1), actions[n - 1]);
    }
  }

  /** Under every interleaving, the keys returned to a lookup that read the clock at `now`
      were either fetched by that lookup, after that reading, or are the bootstrap or a
      published keyset from less than one lifetime before `now`. */
  lemma BoundedStaleness(w: World, actions: seq<Action>, n: nat, id: nat)
    requires n <= |actions| && id in Run(w, actions, n).lookups && Run(w, actions, n).lookups[id].Returned?
    ensures var c := Run(w, actions, n);
            var r := c.lookups[id];
            && r.since <= r.seen <= c.clock && r.keys != map[]
            && (if r.own then r.now <= r.seen && TrustedMap(w.published(r.seen)) == Some(r.keys)
                else r.now - w.ttl < r.since && Origin(w, r.keys, r.since, r.seen))
  {
    RunGood(w, actions, n);
    assert GoodPhase(w, Run(w, actions, n).lookups[id], Run(w, actions, n).clock);
  }

  /** Fetching, failing and being rejected never touch what is trusted; only Install does, and
      only with a keyset that was accepted. */
  lemma OnlyInstallReplaces(w: World, c: Config, a: Action)
    requires GoodConfig(w, c)
    ensures Do(w, c, a).cache != c.cache ==>
              && a.Install? && a.id in c.lookups && c.lookups[a.id].Fetched?
              && TrustedMap(w.published(Do(w, c, a).cache.seen)) == Some(Do(w, c, a).cache.trusted)
              && Do(w, c, a).cache.expiresAt == c.lookups[a.id].now + w.ttl
  {
    if a.Install? && a.id in c.lookups { assert GoodPhase(w, c.lookups[a.id], c.clock); }
  }

  // ---------- Rotation ----------

  ghost predicate Holds(m: KeyMap, kid: string, key: string) {
    kid in m && m[kid] == key
  }

  /** The key is published, in acceptable keysets, throughout [a, b]; a device started in that
      interval has it in its bootstrap, if it has one. */
  ghost predicate PublishedThroughout(w: World, kid: string, key: string, a: Time, b: Time) {
    && (forall t :: a <= t <= b ==> TrustedMap(w.published(t)).Some? && Holds(TrustedMap(w.published(t)).value, kid, key))
    && (a <= w.start <= b ==> w.bootstrap == map[] || Holds(w.bootstrap, kid, key))
  }

  /** A lookup that reads the clock at least one lifetime after the key was first published,
      and finishes while it still is, returns a map with that key. Times are whole
      nanoseconds, so "less than a lifetime before" is `now - ttl + 1` or later. */
  lemma RotationFindsKey(w: World, actions: seq<Action>, n: nat, id: nat, kid: string, key: string, a: Time, b: Time)
    requires n <= |actions| && PublishedThroughout(w, kid, key, a, b)
    requires var c := Run(w, actions, n);
             id in c.lookups && c.lookups[id].Returned? && c.clock <= b && a <= c.lookups[id].now - w.ttl + 1
             && a <= c.lookups[id].now
    ensures Holds(Run(w, actions, n).lookups[id].keys, kid, key)
  {
    hide TrustedMap;
    BoundedStaleness(w, actions, n, id);
  }

  /** Rotation safety: a bundle signed at `signedAt` with a key published throughout [a, b],
      where signedAt >= a + ttl - 1 (whole nanoseconds), passes the signature check of a device that begins its key
      lookup after receiving the bundle and finishes it by b. */
  lemma RotationSafe(w: World, actions: seq<Action>, n: nat, id: nat, c: Primitives, x: Signer, raw: Bytes,
                     a: Time, b: Time, signedAt: Time)
    requires SignaturesCheck(c) && EncodingInverts(c) && WellMade(c, x, x.kid) && raw != [] && w.ttl > 0
    requires n <= |actions| && PublishedThroughout(w, x.kid, PublicKeyB64(c, x), a, b)
    requires var run := Run(w, actions, n);
             id in run.lookups && run.lookups[id].Returned? && run.clock <= b && signedAt <= run.lookups[id].now
    requires a + w.ttl - 1 <= signedAt
    ensures VerifySignedBundleWithKeyset(c, raw, c.encode64(c.sign(x.seed, raw)), "ed25519", x.kid,
                                         Run(w, actions, n).lookups[id].keys) == None
  {
    RotationFindsKey(w, actions, n, id, x.kid, PublicKeyB64(c, x), a, b);
    SignedByPasses(c, x, raw, Run(w, actions, n).lookups[id].keys);
  }

  /** The waiting time cannot be shortened: for every later moment short of the bound there is
      a device, served from its cache, that does not know a key published since a. */
  lemma TooEarlyCanFail(earlier: SigningKeyset, later: SigningKeyset, kid: string, ttl: Time, a: Time, now: Time)
    returns (w: World, actions: seq<Action>)
    requires TrustedMap(earlier).Some? && TrustedMap(later).Some? && kid !in TrustedMap(earlier).value && kid in TrustedMap(later).value
    requires a <= now && now - ttl + 1 < a
    ensures w.ttl == ttl && PublishedThroughout(w, kid, TrustedMap(later).value[kid], a, now)
    ensures var c := Run(w, actions, |actions|);
            c.clock == now && 1 in c.lookups && c.lookups[1].Returned? && c.lookups[1].now == now && kid !in c.lookups[1].keys
  {
    hide TrustedMap, Acceptable, Collect, TrimSpace;
    w := World(t => if t < a then earlier else later, ttl, a - 1, map[]);
    actions := [Begin(0), CheckCache(0), Answer(0), Install(0), Tick(now), Begin(1), CheckCache(1)];
    FirstLookup(w, TrustedMap(earlier).value);
    hide Do;
    RunsFour(w, actions);
    SecondLookup(w, Run(w, actions, 4), now);
    assert Run(w, actions, 7) == Do(w, Run(w, actions, 6), CheckCache(1));
    assert Run(w, actions, 6) == Do(w, Run(w, actions, 5), Begin(1));
    assert Run(w, actions, 5) == Do(w, Run(w, actions, 4), Tick(now));
  }

  lemma FirstLookup(w: World, m: KeyMap)
    requires w.bootstrap == map[] && TrustedMap(w.published(w.start)) == Some(m)
    ensures Do(w, Do(w, Do(w, Do(w, Initial(w), Begin(0)), CheckCache(0)), Answer(0)), Install(0))
         == Config(w.start, Cache(m, w.start + w.ttl, w.start, w.start),
                   map[0 := Returned(w.start, m, w.start, w.start, true)])
  {
    hide TrustedMap;
  }

  lemma RunsFour(w: World, actions: seq<Action>)
    requires |actions| >= 4 && actions[..4] == [Begin(0), CheckCache(0), Answer(0), Install(0)]
    ensures Run(w, actions, 4) == Do(w, Do(w, Do(w, Do(w, Initial(w), Begin(0)), CheckCache(0)), Answer(0)), Install(0))
  {
    hide Do;
    assert actions[0] == actions[..4][0] && actions[1] == actions[..4][1] && actions[2] == actions[..4][2];
    assert actions[3] == actions[..4][3];
    assert Run(w, actions, 1) == Do(w, Initial(w), Begin(0));
    assert Run(w, actions, 2) == Do(w, Run(w, actions, 1), CheckCache(0));
    assert Run(w, actions, 3) == Do(w, Run(w, actions, 2), Answer(0));
  }

  lemma SecondLookup(w: World, c: Config, now: Time)
    requires 1 !in c.lookups && c.clock <= now < c.cache.expiresAt && c.cache.trusted != map[]
    ensures var d := Do(w, Do(w, Do(w, c, Tick(now)), Begin(1)), CheckCache(1));
            && d.clock == now && 1 in d.lookups
            && d.lookups[1] == Returned(now, c.cache.trusted, c.cache.since, c.cache.seen, false)
  {
  }
}
