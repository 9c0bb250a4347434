/** The cryptography and encodings the services call, as unknown functions. What is used of
    them is stated as a predicate, and required where it is needed. */
module Crypto {
  import opened Wrappers
  import opened Text

  type byte = x: int | 0 <= x < 256

  type Bytes = seq<byte>

  datatype Primitives = Primitives(
    publicKey: Bytes -> Bytes,              // Ed25519: seed to public key
    sign: (Bytes, Bytes) -> Bytes,          // seed, message
    check: (Bytes, Bytes, Bytes) -> bool,   // public key, message, signature
    encode64: Bytes -> string,              // standard base64
    decode64: string -> Option<Bytes>,
    sha256: string -> Bytes)

  const SEED_SIZE := 32
  const PUBLIC_KEY_SIZE := 32
  const SIGNATURE_SIZE := 64
  const HASH_SIZE := 32

  /** Signatures made from a seed check under its public key (section 5.1 of RFC 8032). */
  ghost predicate SignaturesCheck(c: Primitives) {
    && (forall seed, m :: |seed| == SEED_SIZE ==> c.check(c.publicKey(seed), m, c.sign(seed, m)))
    && (forall seed :: |seed| == SEED_SIZE ==> |c.publicKey(seed)| == PUBLIC_KEY_SIZE)
    && (forall seed, m :: |seed| == SEED_SIZE ==> |c.sign(seed, m)| == SIGNATURE_SIZE)
  }

  /** Decoding undoes encoding, and encoded text has no white space (section 4 of RFC 4648). */
  ghost predicate EncodingInverts(c: Primitives) {
    && (forall b :: c.decode64(c.encode64(b)) == Some(b))
    && (forall b :: Trimmed(c.encode64(b)))
    && (forall b :: b != [] ==> c.encode64(b) != "")
  }

  ghost predicate HashesAreSized(c: Primitives) {
    forall s :: |c.sha256(s)| == HASH_SIZE
  }

  /** A toy implementation, to show the three predicates can hold together. */
  function Toy(): Primitives {
    Primitives(
      seed => Fill(PUBLIC_KEY_SIZE),
      (seed, m) => Fill(SIGNATURE_SIZE),
      (pub, m, sig) => true,
      b => Spell(b),
      s => Some(Read(s)),
      s => Fill(HASH_SIZE))
  }

  function Fill(n: nat): Bytes {
    seq(n, _ => 0)
  }

  function Spell(b: Bytes): (s: string)
    ensures |s| == |b| && forall i :: 0 <= i < |b| ==> s[i] == (b[i] as int + 0x4E00) as char
  {
    seq(|b|, i requires 0 <= i < |b| => (b[i] as int + 0x4E00) as char)
  }

  function Read(s: string): Bytes {
    seq(|s|, i requires 0 <= i < |s| => (s[i] as int) % 256)
  }

  lemma AssumptionsConsistent()
    ensures SignaturesCheck(Toy()) && EncodingInverts(Toy()) && HashesAreSized(Toy())
  {
    forall b ensures Toy().decode64(Toy().encode64(b)) == Some(b) {
      assert Read(Spell(b)) == b;
    }
  }
}
