/** The device's cache of trusted signing keys: how a fetched keyset becomes a key map, how
    maps are copied, and the cache object itself. */
module Trust {
  import opened Wrappers
  import opened Text
  import opened Verify

  type Time = int

  datatype KeyInfo = KeyInfo(kid: string, alg: string, publicKeyB64: string)

  datatype SigningKeyset = SigningKeyset(activeKid: string, keys: seq<KeyInfo>)

  const DEFAULT_TTL := 5 * 60 * 1_000_000_000

  // ---------- From a fetched keyset to a key map ----------

  predicate UsableKey(k: KeyInfo) {
    !Blank(k.kid) && !Blank(k.publicKeyB64) && TrimSpace(k.alg) == "ed25519"
  }

  ghost predicate Acceptable(ks: SigningKeyset) {
    && ks.keys != []
    && (forall k :: k in ks.keys ==> UsableKey(k))
    && (Blank(ks.activeKid) || exists k :: k in ks.keys && TrimSpace(k.kid) == TrimSpace(ks.activeKid))
  }

  /** Kid to key; of entries with the same trimmed kid, the last one counts. */
  function Collect(keys: seq<KeyInfo>): (m: KeyMap)
    ensures forall kid :: kid in m <==> exists k :: k in keys && TrimSpace(k.kid) == kid
  {
    if keys == [] then map[]
    else
      var last := keys[|keys| - 1];
      var rest := Collect(keys[..|keys| - 1]);
      assert keys == keys[..|keys| - 1] + [last];
      rest[TrimSpace(last.kid) := TrimSpace(last.publicKeyB64)]
  }

  /** The map a keyset gives, or None when the keyset is rejected. */
  ghost function TrustedMap(ks: SigningKeyset): (m: Option<KeyMap>)
    ensures m.Some? ==> m.value != map[]
  {
    if Acceptable(ks) then
      assert ks.keys[0] in ks.keys && TrimSpace(ks.keys[0].kid) in Collect(ks.keys);
      Some(Collect(ks.keys))
    else None
  }

  /** Exactly which keysets are accepted. */
  lemma AcceptedIff(ks: SigningKeyset)
    ensures TrustedMap(ks).Some? <==>
              && |ks.keys| > 0
              && (forall i :: 0 <= i < |ks.keys| ==>
                    && TrimSpace(ks.keys[i].kid) != "" && TrimSpace(ks.keys[i].publicKeyB64) != ""
                    && TrimSpace(ks.keys[i].alg) == "ed25519")
              && (TrimSpace(ks.activeKid) == "" || exists i :: 0 <= i < |ks.keys| && Names(ks.keys[i], ks.activeKid))
  {
    hide TrimSpace;
    assert forall i :: 0 <= i < |ks.keys| ==> ks.keys[i] in ks.keys;
    if k :| k in ks.keys && TrimSpace(k.kid) == TrimSpace(ks.activeKid) {
      var i :| 0 <= i < |ks.keys| && ks.keys[i] == k;
      assert Names(ks.keys[i], ks.activeKid);
    }
  }

  predicate Names(k: KeyInfo, kid: string) {
    TrimSpace(k.kid) == TrimSpace(kid)
  }

  /** Trimmed, non-blank kids and keys only. */
  ghost predicate Normal(m: KeyMap) {
    forall kid :: kid in m ==> Trimmed(kid) && kid != "" && Trimmed(m[kid]) && m[kid] != ""
  }

  lemma {:induction false} CollectNormal(keys: seq<KeyInfo>)
    requires forall k :: k in keys ==> UsableKey(k)
    ensures Normal(Collect(keys))
  {
    if keys != [] {
      assert keys[|keys| - 1] in keys;
      CollectNormal(keys[..|keys| - 1]);
    }
  }

  lemma {:induction false} LastEntryCounts(keys: seq<KeyInfo>, i: nat)
    requires i < |keys|
    requires forall j :: i < j < |keys| ==> TrimSpace(keys[j].kid) != TrimSpace(keys[i].kid)
    ensures Collect(keys)[TrimSpace(keys[i].kid)] == TrimSpace(keys[i].publicKeyB64)
  {
    if i < |keys| - 1 {
      LastEntryCounts(keys[..|keys| - 1], i);
      assert TrimSpace(keys[|keys| - 1].kid) != TrimSpace(keys[i].kid);
    }
  }

  /** The keys are taken in order; the first unusable one rejects the whole keyset. */
  method TrustedMapFromKeyset(ks: SigningKeyset) returns (r: Option<KeyMap>)
    ensures r == TrustedMap(ks)
    ensures r.Some? ==> r.value != map[] && Normal(r.value)
  {
    hide TrimSpace, Trimmed;
    if |ks.keys| == 0 {
      return None;
    }
    var out: KeyMap := map[];
    for i := 0 to |ks.keys|
      invariant out == Collect(ks.keys[..i])
      invariant forall j :: 0 <= j < i ==> UsableKey(ks.keys[j])
    {
      var kid, alg, pub := TrimSpace(ks.keys[i].kid), TrimSpace(ks.keys[i].alg), TrimSpace(ks.keys[i].publicKeyB64);
      if kid == "" || pub == "" || alg != "ed25519" {
        assert ks.keys[i] in ks.keys && !UsableKey(ks.keys[i]);
        return None;
      }
      assert ks.keys[..i + 1][..i] == ks.keys[..i];
      out := out[kid := pub];
    }
    assert ks.keys[..|ks.keys|] == ks.keys;
    CollectNormal(ks.keys);
    var active := TrimSpace(ks.activeKid);
    if active != "" && active !in out {
      return None;
    }
    return Some(out);
  }

  // ---------- Copying key maps ----------

  predicate UsableEntry(m: KeyMap, kid: string) {
    kid in m && !Blank(kid) && !Blank(m[kid])
  }

  /** out is what copying gives: usable entries, trimmed. Where kids collide after trimming,
      which entry is kept depends on the order of iteration. */
  ghost predicate CopyOf(src: KeyMap, out: KeyMap) {
    && (forall kid :: UsableEntry(src, kid) ==> TrimSpace(kid) in out)
    && (forall k :: k in out ==> exists kid :: UsableEntry(src, kid) && TrimSpace(kid) == k && TrimSpace(src[kid]) == out[k])
  }

  lemma CopyIsNormal(src: KeyMap, out: KeyMap)
    requires CopyOf(src, out)
    ensures Normal(out)
  {
  }

  /** On a normal map, copying is the identity. */
  lemma CopyOfNormal(src: KeyMap, out: KeyMap)
    requires Normal(src) && CopyOf(src, out)
    ensures out == src
  {
    hide TrimSpace, IsSpace;
    assert forall kid :: kid in src ==> TrimSpace(kid) == kid && TrimSpace(src[kid]) == src[kid];
    forall kid | kid in src ensures kid in out { assert UsableEntry(src, kid); }
    forall k | k in out ensures k in src && src[k] == out[k] {
      var kid :| UsableEntry(src, kid) && TrimSpace(kid) == k && TrimSpace(src[kid]) == out[k];
    }
  }

  /** A Go map value: a reference whose entries can change under everyone who holds it. */
  class KeyTable {
    var entries: KeyMap

    constructor (entries: KeyMap)
      ensures this.entries == entries
    {
      this.entries := entries;
    }
  }

  /** null for an empty result. */
  method CopyTrustedKeyMap(src: KeyTable?) returns (out: KeyTable?)
    ensures out != null ==> fresh(out) && out.entries != map[] && src != null && CopyOf(src.entries, out.entries)
    ensures out == null ==> src == null || CopyOf(src.entries, map[])
  {
    if src == null || |src.entries| == 0 {
      return null;
    }
    var copied: KeyMap := map[];
    var todo := src.entries.Keys;
    while todo != {}
      invariant todo <= src.entries.Keys
      invariant forall kid :: UsableEntry(src.entries, kid) && kid !in todo ==> TrimSpace(kid) in copied
      invariant forall k :: k in copied ==> exists kid :: UsableEntry(src.entries, kid) && TrimSpace(kid) == k
                                                         && TrimSpace(src.entries[kid]) == copied[k]
      decreases todo
    {
      var kid :| kid in todo;
      todo := todo - {kid};
      var k, key := TrimSpace(kid), TrimSpace(src.entries[kid]);
      if k == "" || key == "" {
        continue;
      }
      assert UsableEntry(src.entries, kid);
      copied := copied[k := key];
    }
    if |copied| == 0 {
      return null;
    }
    out := new KeyTable(copied);
  }

  // ---------- The cache ----------

  class KeysetSource {
    var trusted: KeyTable?
    var expiresAt: Time
    const ttl: Time
    const hasFetcher: bool

    /** The cached map is absent, or non-empty and normal. */
    ghost predicate Valid()
      reads this, trusted
    {
      trusted != null ==> trusted.entries != map[] && Normal(trusted.entries)
    }

    /** The cached entries; empty when there are none. */
    function Cached(): KeyMap
      reads this, trusted
    {
      if trusted == null then map[] else trusted.entries
    }

    constructor (hasFetcher: bool, bootstrap: KeyTable?, ttl: Time, now: Time)
      ensures Valid() && this.hasFetcher == hasFetcher
      ensures this.ttl == (if ttl <= 0 then DEFAULT_TTL else ttl) && this.ttl > 0
      ensures ttl <= 0 ==> this.ttl == 300_000_000_000
      ensures trusted != null ==> fresh(trusted) && expiresAt == now + this.ttl
      ensures if bootstrap == null then trusted == null else CopyOf(bootstrap.entries, Cached())
    {
      this.hasFetcher := hasFetcher;
      this.ttl := if ttl <= 0 then DEFAULT_TTL else ttl;
      this.expiresAt := 0;
      this.trusted := null;
      new;
      var cached := CopyTrustedKeyMap(bootstrap);
      if cached != null {
        trusted := cached;
        expiresAt := now + this.ttl;
        CopyIsNormal(bootstrap.entries, cached.entries);
      }
    }

    /** The section under the read lock. */
    method CachedIfFresh(now: Time) returns (out: KeyTable?)
      requires Valid()
      ensures out == null <==> trusted == null || now >= expiresAt
      ensures out != null ==> fresh(out) && out.entries == Cached()
    {
      if trusted == null || now >= expiresAt {
        return null;
      }
      out := CopyTrustedKeyMap(trusted);
      if out == null {
        CopyOfNormal(trusted.entries, map[]);
      } else {
        CopyOfNormal(trusted.entries, out.entries);
      }
    }

    /** The section under the write lock: whatever was cached, newer or older, is replaced. */
    method Replace(keys: KeyTable, now: Time)
      requires keys.entries != map[] && Normal(keys.entries)
      modifies this
      ensures Valid() && trusted == keys && expiresAt == now + ttl
    {
      trusted := keys;
      expiresAt := now + ttl;
    }

    /** One lookup that nothing else interleaves with; `answer` is what a fetch would bring.
        A failed or rejected fetch changes nothing and returns nothing. */
    method TrustedKeys(now: Time, answer: Option<SigningKeyset>) returns (out: KeyTable?)
      requires Valid()
      modifies this
      ensures Valid()
      ensures out != null ==> fresh(out) && out != trusted && out.entries == Cached()
      ensures var hit := old(trusted) != null && now < old(expiresAt);
              var got := if hasFetcher && answer.Some? then TrustedMap(answer.value) else None;
              && (hit ==> out != null && unchanged(this))
              && (!hit && got.Some? ==> out != null && Cached() == got.value && expiresAt == now + ttl && fresh(trusted))
              && (!hit && got.None? ==> out == null && unchanged(this))
    {
      hide TrimSpace, Trimmed, Normal, CopyOf, Acceptable, Collect;
      out := CachedIfFresh(now);
      if out != null {
        return;
      }
      if !hasFetcher || answer.None? {
        return null;
      }
      var fetched := TrustedMapFromKeyset(answer.value);
      if fetched.None? {
        return null;
      }
      var table := new KeyTable(fetched.value);
      Replace(table, now);
      out := CopyTrustedKeyMap(table);
      if out == null {
        CopyOfNormal(table.entries, map[]);
      } else {
        CopyOfNormal(table.entries, out.entries);
      }
    }
  }

  // ---------- Isolation ----------

  /** What the cache holds. */
  datatype Held = Held(keys: KeyMap, expiresAt: Time)

  /** One lookup, what a fetch would bring, and what its caller then does to every map it can
      reach. */
  datatype Visit = Visit(now: Time, answer: Option<SigningKeyset>, junk: KeyMap)

  ghost function Brought(v: Visit): Option<KeyMap> {
    if v.answer.Some? then TrustedMap(v.answer.value) else None
  }

  ghost predicate Hit(h: Held, v: Visit) {
    h.keys != map[] && v.now < h.expiresAt
  }

  /** A hit and a failed fetch leave the cache alone; an accepted fetch replaces it. */
  ghost function AfterVisit(h: Held, v: Visit, ttl: Time): Held {
    if Hit(h, v) || Brought(v).None? then h else Held(Brought(v).value, v.now + ttl)
  }

  ghost function ServedTo(h: Held, v: Visit): Option<KeyMap> {
    if Hit(h, v) then Some(h.keys) else Brought(v)
  }

  ghost function AfterVisits(h: Held, visits: seq<Visit>, n: nat, ttl: Time): Held
    requires n <= |visits|
  {
    if n == 0 then h else AfterVisit(AfterVisits(h, visits, n - 1, ttl), visits[n - 1], ttl)
  }

  method Scribble(tables: seq<KeyTable>, junk: KeyMap)
    modifies set t | t in tables
    ensures forall t :: t in tables ==> t.entries == junk
  {
    for i := 0 to |tables|
      invariant forall j :: 0 <= j < i ==> tables[j].entries == junk
    {
      tables[i].entries := junk;
    }
  }

  ghost predicate CacheIs(source: KeysetSource, h: Held)
    reads source, source.trusted
  {
    source.Cached() == h.keys && (source.trusted != null ==> source.expiresAt == h.expiresAt)
  }

  /** One lookup, after which its caller overwrites every map handed out so far. */
  method LookUpAndScribble(source: KeysetSource, handed: seq<KeyTable>, v: Visit, ghost h: Held)
    returns (more: seq<KeyTable>, served: Option<KeyMap>)
    requires source.Valid() && source.hasFetcher && CacheIs(source, h) && source.trusted !in handed
    modifies source, set t | t in handed
    ensures source.Valid() && CacheIs(source, AfterVisit(h, v, source.ttl)) && served == ServedTo(h, v)
    ensures source.trusted !in more && (source.trusted == old(source.trusted) || fresh(source.trusted))
    ensures forall t :: t in more ==> t in handed || fresh(t)
  {
    hide TrustedMap, Normal;
    var out := source.TrustedKeys(v.now, v.answer);
    more, served := handed, None;
    if out != null {
      more, served := handed + [out], Some(out.entries);
    }
    Scribble(more, v.junk);
  }

  /** For every sequence of lookups: though after each one the bootstrap map and every map
      handed out so far are overwritten, what is served and what is cached depend only on the
      original bootstrap, the readings and the answers. */
  method ServedDespiteScribbling(bootstrap: KeyTable, visits: seq<Visit>, ttl: Time, now: Time)
    returns (source: KeysetSource, ghost start: KeyMap, served: seq<Option<KeyMap>>)
    modifies bootstrap
    ensures fresh(source) && source.Valid() && CopyOf(old(bootstrap.entries), start)
    ensures source.ttl == if ttl <= 0 then DEFAULT_TTL else ttl
    ensures var h := Held(start, now + source.ttl);
            && |served| == |visits|
            && (forall i :: 0 <= i < |visits| ==>
                  served[i] == ServedTo(AfterVisits(h, visits, i, source.ttl), visits[i]))
            && source.Cached() == AfterVisits(h, visits, |visits|, source.ttl).keys
  {
    hide CopyOf, Normal, TrustedMap, AfterVisit, ServedTo;
    source := new KeysetSource(true, bootstrap, ttl, now);
    start := source.Cached();
    ghost var h := Held(start, now + source.ttl);
    var handed: seq<KeyTable> := [bootstrap];
    served := [];
    for i := 0 to |visits|
      invariant fresh(source) && source.Valid() && (source.trusted != null ==> fresh(source.trusted))
      invariant source.trusted !in handed && source.hasFetcher && |served| == i
      invariant forall t :: t in handed ==> t == bootstrap || fresh(t)
      invariant CacheIs(source, AfterVisits(h, visits, i, source.ttl))
      invariant forall j :: 0 <= j < i ==> served[j] == ServedTo(AfterVisits(h, visits, j, source.ttl), visits[j])
    {
      var more, answer := LookUpAndScribble(source, handed, visits[i], AfterVisits(h, visits, i, source.ttl));
      handed, served := more, served + [answer];
    }
  }
}
