/** The control plane's signer set, the keyset it publishes, and the round trip to a device
    that trusts that keyset. */
module Signing {
  import opened Wrappers
  import opened Text
  import opened Crypto
  import opened Verify
  import opened Trust

  const DEFAULT_KID := "v1"

  datatype Signer = Signer(seed: Bytes, publicKey: Bytes, kid: string)

  datatype SignerSet = SignerSet(activeKid: string, signers: map<string, Signer>)

  datatype SignedBundle = SignedBundle(raw: Bytes, signature: string, alg: string, kid: string)

  datatype SetupError = NoKeys | BlankKid | BadSeed | ActiveNotFound

  function SeedOf(c: Primitives, seedB64: string): Option<Bytes> {
    match c.decode64(seedB64)
    case None => None
    case Some(seed) => if |seed| == SEED_SIZE then Some(seed) else None
  }

  function NewSigner(c: Primitives, seedB64: string, kid: string): Option<Signer> {
    match SeedOf(c, seedB64)
    case None => None
    case Some(seed) =>
      Some(Signer(seed, c.publicKey(seed), if Blank(kid) then DEFAULT_KID else TrimSpace(kid)))
  }

  function ActiveKid(requested: string): string {
    if Blank(requested) then DEFAULT_KID else TrimSpace(requested)
  }

  /** Exactly the configurations from which a signer set is built. */
  ghost predicate Buildable(c: Primitives, seeds: map<string, string>, active: string) {
    && (forall raw :: raw in seeds ==> !Blank(raw) && SeedOf(c, seeds[raw]).Some?)
    && (exists raw :: raw in seeds && TrimSpace(raw) == ActiveKid(active))
  }

  /** One signer per trimmed kid, from the seed of one of the entries with that kid. */
  ghost predicate BuiltFrom(c: Primitives, seeds: map<string, string>, signers: map<string, Signer>) {
    && (forall raw :: raw in seeds ==> TrimSpace(raw) in signers)
    && (forall kid :: kid in signers ==>
          exists raw :: raw in seeds && TrimSpace(raw) == kid && NewSigner(c, seeds[raw], kid) == Some(signers[kid]))
  }

  ghost predicate WellBuilt(c: Primitives, s: SignerSet) {
    && s.activeKid in s.signers
    && forall kid :: kid in s.signers ==> WellMade(c, s.signers[kid], kid)
  }

  predicate WellMade(c: Primitives, x: Signer, kid: string) {
    && x.kid == kid && kid != "" && Trimmed(kid)
    && |x.seed| == SEED_SIZE && x.publicKey == c.publicKey(x.seed)
  }

  /** The entries are taken in an arbitrary order; whether a set is built does not depend on
      it, even when kids collide after trimming. */
  method NewSignerSetFromSeedMap(c: Primitives, seeds: map<string, string>, active: string)
    returns (r: Result<SignerSet, SetupError>)
    ensures r.Ok? <==> Buildable(c, seeds, active)
    ensures r.Ok? ==> r.value.activeKid == ActiveKid(active) && BuiltFrom(c, seeds, r.value.signers) && WellBuilt(c, r.value)
  {
    hide SignersSoFar, TrimSpace, NewSigner, BuiltFrom;
    if |seeds| == 0 {
      return Err(NoKeys);
    }
    var activeKid := TrimSpace(active);
    if activeKid == "" {
      activeKid := DEFAULT_KID;
    }
    var signers: map<string, Signer> := map[];
    var todo := seeds.Keys;
    NoSignersYet(c, seeds);
    while todo != {}
      invariant todo <= seeds.Keys
      invariant SignersSoFar(c, seeds, todo, signers)
      decreases todo
    {
      var raw :| raw in todo;
      var kid := TrimSpace(raw);
      if kid == "" {
        return Err(BlankKid);
      }
      var signer := NewSigner(c, seeds[raw], kid);
      if signer.None? {
        assert SeedOf(c, seeds[raw]).None? by { SignerNeedsSeed(c, seeds[raw], kid); }
        return Err(BadSeed);
      }
      AddSigner(c, seeds, todo, signers, raw);
      signers := signers[kid := signer.value];
      todo := todo - {raw};
    }
    AllSigners(c, seeds, signers, activeKid);
    if activeKid !in signers {
      return Err(ActiveNotFound);
    }
    return Ok(SignerSet(activeKid, signers));
  }

  lemma SignerNeedsSeed(c: Primitives, seedB64: string, kid: string)
    ensures NewSigner(c, seedB64, kid).Some? <==> SeedOf(c, seedB64).Some?
  {
  }

  /** The entries visited so far are usable and have their signers, and there are no others. */
  ghost predicate SignersSoFar(c: Primitives, seeds: map<string, string>, todo: set<string>, signers: map<string, Signer>) {
    && (forall raw :: raw in seeds && raw !in todo ==>
          !Blank(raw) && SeedOf(c, seeds[raw]).Some? && TrimSpace(raw) in signers)
    && (forall kid :: kid in signers ==> SignerFrom(c, seeds, signers[kid], kid))
  }

  lemma NoSignersYet(c: Primitives, seeds: map<string, string>)
    ensures SignersSoFar(c, seeds, seeds.Keys, map[])
  {
  }

  lemma AddSigner(c: Primitives, seeds: map<string, string>, todo: set<string>, signers: map<string, Signer>, raw: string)
    requires SignersSoFar(c, seeds, todo, signers) && raw in todo && raw in seeds && !Blank(raw)
    requires NewSigner(c, seeds[raw], TrimSpace(raw)).Some?
    ensures SignersSoFar(c, seeds, todo - {raw}, signers[TrimSpace(raw) := NewSigner(c, seeds[raw], TrimSpace(raw)).value])
  {
    hide TrimSpace;
    assert SignerFrom(c, seeds, NewSigner(c, seeds[raw], TrimSpace(raw)).value, TrimSpace(raw));
  }

  lemma AllSigners(c: Primitives, seeds: map<string, string>, signers: map<string, Signer>, active: string)
    requires SignersSoFar(c, seeds, {}, signers)
    ensures BuiltFrom(c, seeds, signers)
    ensures forall raw :: raw in seeds ==> !Blank(raw) && SeedOf(c, seeds[raw]).Some?
    ensures active in signers <==> exists raw :: raw in seeds && TrimSpace(raw) == active
    ensures forall kid :: kid in signers ==> WellMade(c, signers[kid], kid)
  {
    forall kid | kid in signers ensures WellMade(c, signers[kid], kid) {
      SignerWellMade(c, seeds, signers[kid], kid);
    }
    forall kid | kid in signers
      ensures exists raw :: raw in seeds && TrimSpace(raw) == kid && NewSigner(c, seeds[raw], kid) == Some(signers[kid]) {
      assert SignerFrom(c, seeds, signers[kid], kid);
    }
  }

  ghost predicate SignerFrom(c: Primitives, seeds: map<string, string>, x: Signer, kid: string) {
    exists raw :: raw in seeds && TrimSpace(raw) == kid && NewSigner(c, seeds[raw], kid) == Some(x) && kid != ""
  }

  lemma SignerWellMade(c: Primitives, seeds: map<string, string>, x: Signer, kid: string)
    requires SignerFrom(c, seeds, x, kid)
    ensures WellMade(c, x, kid)
  {
  }

  // ---------- Whose seed a signer has ----------

  /** An entry configures this seed for the kid. */
  predicate Configures(c: Primitives, seeds: map<string, string>, raw: string, kid: string, seed: Bytes) {
    raw in seeds && TrimSpace(raw) == kid && c.decode64(seeds[raw]) == Some(seed) && |seed| == 32
  }

  /** A set is built exactly when there are entries for the active kid, "v1" if none is named, and
      every entry has a kid that is not blank and decodes to 32 bytes. */
  lemma BuildableIff(c: Primitives, seeds: map<string, string>, active: string)
    ensures Buildable(c, seeds, active) <==>
              && (forall raw :: raw in seeds ==> TrimSpace(raw) != "" && SeedDecodes(c, seeds[raw]))
              && (exists raw :: raw in seeds && TrimSpace(raw) == ActiveKid(active))
    ensures TrimSpace(active) == "" ==> ActiveKid(active) == "v1"
    ensures TrimSpace(active) != "" ==> ActiveKid(active) == TrimSpace(active)
  {
    hide TrimSpace;
  }

  predicate SeedDecodes(c: Primitives, text: string) {
    c.decode64(text).Some? && |c.decode64(text).value| == 32
  }

  /** In a built set every kid's signer has the seed that an entry configures for that kid, and
      that seed's public key. */
  lemma SeedsAreConfigured(c: Primitives, seeds: map<string, string>, signers: map<string, Signer>, kid: string)
    returns (raw: string)
    requires BuiltFrom(c, seeds, signers) && kid in signers
    ensures Configures(c, seeds, raw, kid, signers[kid].seed)
    ensures signers[kid].publicKey == c.publicKey(signers[kid].seed)
  {
    raw :| raw in seeds && TrimSpace(raw) == kid && NewSigner(c, seeds[raw], kid) == Some(signers[kid]);
  }

  /** What a built set signs is the given bytes, with the signature of the seed that an entry
      configures for the active kid, under that kid. */
  lemma SignedWithConfiguredSeed(c: Primitives, seeds: map<string, string>, s: SignerSet, raw: Bytes)
    returns (entry: string, seed: Bytes)
    requires BuiltFrom(c, seeds, s.signers) && WellBuilt(c, s)
    ensures Configures(c, seeds, entry, s.activeKid, seed)
    ensures var b := SignBundle(c, s, raw);
            b.raw == raw && b.signature == c.encode64(c.sign(seed, raw)) && b.alg == "ed25519" && b.kid == s.activeKid
  {
    entry := SeedsAreConfigured(c, seeds, s.signers, s.activeKid);
    seed := s.signers[s.activeKid].seed;
    assert WellMade(c, s.signers[s.activeKid], s.activeKid);
  }

  /** What a built set publishes for a kid is the public key of the seed configured for it. */
  lemma PublishedKeyIsConfigured(c: Primitives, seeds: map<string, string>, s: SignerSet, ks: SigningKeyset, k: KeyInfo)
    returns (entry: string, seed: Bytes)
    requires BuiltFrom(c, seeds, s.signers) && Publishes(c, s, ks) && k in ks.keys
    ensures Configures(c, seeds, entry, k.kid, seed)
    ensures k.publicKeyB64 == c.encode64(c.publicKey(seed)) && k.alg == "ed25519"
  {
    entry := SeedsAreConfigured(c, seeds, s.signers, k.kid);
    seed := s.signers[k.kid].seed;
  }

  // ---------- Signing and publishing ----------

  /** The active signer signs the payload's bytes. */
  function SignBundle(c: Primitives, s: SignerSet, raw: Bytes): SignedBundle
    requires s.activeKid in s.signers
  {
    var x := s.signers[s.activeKid];
    SignedBundle(raw, c.encode64(c.sign(x.seed, raw)), "ed25519", x.kid)
  }

  function PublicKeyB64(c: Primitives, x: Signer): string {
    c.encode64(x.publicKey)
  }

  function InfoOf(c: Primitives, x: Signer): KeyInfo {
    KeyInfo(x.kid, "ed25519", PublicKeyB64(c, x))
  }

  function KidOf(k: KeyInfo): string { k.kid }

  /** What is published: the active kid and one entry per signer, kids strictly increasing. */
  ghost predicate Publishes(c: Primitives, s: SignerSet, ks: SigningKeyset) {
    && ks.activeKid == s.activeKid
    && StrictlySorted(ks.keys, KidOf)
    && (forall k :: k in ks.keys <==> k.kid in s.signers && k == InfoOf(c, s.signers[k.kid]))
  }

  /** The published keyset is the same whatever order the signers were taken in. */
  lemma PublishedOnce(c: Primitives, s: SignerSet, a: SigningKeyset, b: SigningKeyset)
    requires Publishes(c, s, a) && Publishes(c, s, b)
    ensures a == b
  {
    SortedUnique(a.keys, b.keys, KidOf);
  }

  method Keyset(c: Primitives, s: SignerSet) returns (ks: SigningKeyset)
    requires WellBuilt(c, s)
    ensures Publishes(c, s, ks)
  {
    hide Trimmed, Sort;
    var keys: seq<KeyInfo> := [];
    var todo := s.signers.Keys;
    while todo != {}
      invariant todo <= s.signers.Keys
      invariant forall i :: 0 <= i < |keys| ==>
                  keys[i].kid in s.signers && keys[i].kid !in todo && keys[i] == InfoOf(c, s.signers[keys[i].kid])
      invariant forall kid :: kid in s.signers && kid !in todo ==> InfoOf(c, s.signers[kid]) in keys
      invariant DistinctKeys(keys, KidOf)
      decreases todo
    {
      var kid :| kid in todo;
      todo := todo - {kid};
      assert WellMade(c, s.signers[kid], kid);
      keys := keys + [InfoOf(c, s.signers[kid])];
    }
    SortSorts(keys, KidOf);
    return SigningKeyset(s.activeKid, Sort(keys, KidOf));
  }

  // ---------- The round trip ----------

  /** What a device should end up trusting: each kid with its public key. */
  function PublicKeys(c: Primitives, s: SignerSet): KeyMap {
    map kid | kid in s.signers :: PublicKeyB64(c, s.signers[kid])
  }

  lemma EntryUsable(c: Primitives, x: Signer, kid: string)
    requires WellMade(c, x, kid) && SignaturesCheck(c) && EncodingInverts(c)
    ensures UsableKey(InfoOf(c, x)) && TrimSpace(x.kid) == kid && TrimSpace(PublicKeyB64(c, x)) == PublicKeyB64(c, x)
  {
    assert |x.publicKey| == PUBLIC_KEY_SIZE && x.publicKey != [];
    assert TrimSpace("ed25519") == "ed25519" by { assert Trimmed("ed25519"); }
    assert c.encode64(x.publicKey) != "";
  }

  /** A device that fetches the published keyset accepts it and trusts exactly each kid with
      its public key. */
  lemma PublishedIsTrusted(c: Primitives, s: SignerSet, ks: SigningKeyset)
    requires WellBuilt(c, s) && Publishes(c, s, ks) && SignaturesCheck(c) && EncodingInverts(c)
    ensures TrustedMap(ks) == Some(PublicKeys(c, s))
    ensures s.activeKid in PublicKeys(c, s)
  {
    hide TrimSpace, Trimmed;
    forall k | k in ks.keys ensures UsableKey(k) && TrimSpace(k.kid) == k.kid && TrimSpace(k.publicKeyB64) == k.publicKeyB64 {
      EntryUsable(c, s.signers[k.kid], k.kid);
    }
    var active := InfoOf(c, s.signers[s.activeKid]);
    assert WellMade(c, s.signers[s.activeKid], s.activeKid);
    assert active.kid == s.activeKid && active in ks.keys;
    var m := Collect(ks.keys);
    forall kid ensures kid in m <==> kid in s.signers {
      if kid in s.signers {
        assert WellMade(c, s.signers[kid], kid);
        assert InfoOf(c, s.signers[kid]) in ks.keys && TrimSpace(InfoOf(c, s.signers[kid]).kid) == kid;
      }
    }
    forall kid | kid in m ensures m[kid] == PublicKeyB64(c, s.signers[kid]) {
      assert WellMade(c, s.signers[kid], kid);
      assert InfoOf(c, s.signers[kid]) in ks.keys;
      var i :| 0 <= i < |ks.keys| && ks.keys[i] == InfoOf(c, s.signers[kid]);
      SortedKidsDiffer(ks.keys, i);
      LastEntryCounts(ks.keys, i);
    }
    assert m == PublicKeys(c, s);
  }

  lemma SortedKidsDiffer(keys: seq<KeyInfo>, i: nat)
    requires StrictlySorted(keys, KidOf) && i < |keys|
    requires forall k :: k in keys ==> TrimSpace(k.kid) == k.kid
    ensures forall j :: i < j < |keys| ==> TrimSpace(keys[j].kid) != TrimSpace(keys[i].kid)
  {
    forall j | i < j < |keys| ensures TrimSpace(keys[j].kid) != TrimSpace(keys[i].kid) {
      assert keys[i] in keys && keys[j] in keys && Less(KidOf(keys[i]), KidOf(keys[j]));
      LessTotal(keys[i].kid, keys[j].kid);
    }
  }

  /** A bundle signed by a signer passes the signature check of any device that trusts that
      signer's kid with its public key. */
  lemma SignedByPasses(c: Primitives, x: Signer, raw: Bytes, trusted: KeyMap)
    requires WellMade(c, x, x.kid) && SignaturesCheck(c) && EncodingInverts(c) && raw != []
    requires x.kid in trusted && trusted[x.kid] == PublicKeyB64(c, x)
    ensures VerifySignedBundleWithKeyset(c, raw, c.encode64(c.sign(x.seed, raw)), "ed25519", x.kid, trusted) == None
  {
    var signature := c.encode64(c.sign(x.seed, raw));
    assert TrimSpace("ed25519") == "ed25519" by { assert Trimmed("ed25519"); }
    assert TrimSpace(signature) == signature && TrimSpace(trusted[x.kid]) == trusted[x.kid];
    assert DecodeSized(c, trusted[x.kid], PUBLIC_KEY_SIZE) == Some(x.publicKey);
    assert DecodeSized(c, signature, SIGNATURE_SIZE) == Some(c.sign(x.seed, raw));
  }

  /** Sign, publish, trust, verify: every bundle a set signs is accepted by a device that has
      fetched the set's keyset. */
  lemma RoundTrip(c: Primitives, s: SignerSet, ks: SigningKeyset, raw: Bytes)
    requires WellBuilt(c, s) && Publishes(c, s, ks) && SignaturesCheck(c) && EncodingInverts(c) && raw != []
    ensures TrustedMap(ks).Some?
    ensures var b := SignBundle(c, s, raw);
            VerifySignedBundleWithKeyset(c, b.raw, b.signature, b.alg, b.kid, TrustedMap(ks).value) == None
  {
    PublishedIsTrusted(c, s, ks);
    assert WellMade(c, s.signers[s.activeKid], s.activeKid);
    SignedByPasses(c, s.signers[s.activeKid], raw, PublicKeys(c, s));
  }
}
