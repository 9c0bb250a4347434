/** The device's checks: bundle signature, measurement policy, report data, and the strict
    verifier that joins them. */
module Verify {
  import opened Wrappers
  import opened Text
  import opened Crypto

  datatype Reason =
    | AttestationDependencyFailure
    | BundleInvalid
    | QuoteInvalid
    | MeasurementMismatch
    | ReportDataMismatch

  /** None: no objection. */
  type Verdict = Option<Reason>

  type KeyMap = map<string, string>

  // ---------- Bundle signature ----------

  function DecodeSized(c: Primitives, text: string, size: nat): Option<Bytes> {
    match c.decode64(TrimSpace(text))
    case None => None
    case Some(raw) => if |raw| == size then Some(raw) else None
  }

  function VerifySignedBundle(c: Primitives, raw: Bytes, signature: string, alg: string, publicKey: string): Verdict {
    if TrimSpace(alg) != "ed25519" || raw == [] then Some(BundleInvalid)
    else
      match DecodeSized(c, publicKey, PUBLIC_KEY_SIZE)
      case None => Some(BundleInvalid)
      case Some(key) =>
        match DecodeSized(c, signature, SIGNATURE_SIZE)
        case None => Some(BundleInvalid)
        case Some(sig) => if c.check(key, raw, sig) then None else Some(BundleInvalid)
  }

  function VerifySignedBundleWithKeyset(c: Primitives, raw: Bytes, signature: string, alg: string, kid: string,
                                        trusted: KeyMap): Verdict {
    if TrimSpace(kid) == "" || TrimSpace(kid) !in trusted then Some(BundleInvalid)
    else VerifySignedBundle(c, raw, signature, alg, trusted[TrimSpace(kid)])
  }

  /** These exact bytes carry a signature that checks under this trusted key. */
  ghost predicate SignedUnder(c: Primitives, raw: Bytes, signature: string, publicKey: string) {
    exists key, sig ::
      && c.decode64(TrimSpace(publicKey)) == Some(key) && |key| == PUBLIC_KEY_SIZE
      && c.decode64(TrimSpace(signature)) == Some(sig) && |sig| == SIGNATURE_SIZE
      && c.check(key, raw, sig)
  }

  /** Accepted exactly when the bytes are non-empty and signed under the key trusted for the kid. */
  lemma AcceptedIffSigned(c: Primitives, raw: Bytes, signature: string, alg: string, kid: string, trusted: KeyMap)
    ensures VerifySignedBundleWithKeyset(c, raw, signature, alg, kid, trusted) == None <==>
              && raw != [] && TrimSpace(alg) == "ed25519" && !Blank(kid) && TrimSpace(kid) in trusted
              && SignedUnder(c, raw, signature, trusted[TrimSpace(kid)])
  {
    var k := TrimSpace(kid);
    if k in trusted {
      var key, sig := DecodeSized(c, trusted[k], PUBLIC_KEY_SIZE), DecodeSized(c, signature, SIGNATURE_SIZE);
      if key.Some? && sig.Some? && c.check(key.value, raw, sig.value) {
        assert c.decode64(TrimSpace(trusted[k])) == Some(key.value);
      }
    }
  }

  // ---------- Measurement policy ----------

  datatype Bundle = Bundle(
    connectorId: string, sshPublicKey: string, quoteHex: string,
    mrtd: string, rtmr0: string, rtmr1: string, rtmr2: string, rtmr3: string,
    reportDataExpected: string, policyVersion: string)

  /** Allowed values; an empty set allows any. */
  datatype StaticPolicy = StaticPolicy(mrtd: set<string>, rtmr3: set<string>)

  method NewStaticPolicy(allowedMrtd: seq<string>, allowedRtmr3: seq<string>) returns (p: StaticPolicy)
    ensures forall v :: v in p.mrtd <==> v in allowedMrtd
    ensures forall v :: v in p.rtmr3 <==> v in allowedRtmr3
  {
    var mrtd := {};
    for i := 0 to |allowedMrtd|
      invariant forall v :: v in mrtd <==> v in allowedMrtd[..i]
    {
      mrtd := mrtd + {allowedMrtd[i]};
    }
    var rtmr3 := {};
    for i := 0 to |allowedRtmr3|
      invariant forall v :: v in rtmr3 <==> v in allowedRtmr3[..i]
    {
      rtmr3 := rtmr3 + {allowedRtmr3[i]};
    }
    assert allowedMrtd[..|allowedMrtd|] == allowedMrtd && allowedRtmr3[..|allowedRtmr3|] == allowedRtmr3;
    return StaticPolicy(mrtd, rtmr3);
  }

  function CheckMeasurements(p: StaticPolicy, b: Bundle): Verdict {
    if p.mrtd != {} && b.mrtd !in p.mrtd then Some(MeasurementMismatch)
    else if p.rtmr3 != {} && b.rtmr3 !in p.rtmr3 then Some(MeasurementMismatch)
    else if b.rtmr0 == "" || b.rtmr1 == "" || b.rtmr2 == "" then Some(MeasurementMismatch)
    else None
  }

  // ---------- Report data ----------

  const REPORT_SIZE := 64

  function Zeros(n: nat): Bytes {
    seq(n, _ => 0)
  }

  /** The key's hash, zero-padded to the size of REPORT_DATA. */
  function ExpectedReportData(c: Primitives, sshPublicKey: string): Bytes {
    c.sha256(sshPublicKey) + Zeros(32)
  }

  method ComputeExpectedReportData(c: Primitives, sshPublicKey: string) returns (out: array<byte>)
    requires HashesAreSized(c)
    ensures fresh(out) && out[..] == ExpectedReportData(c, sshPublicKey)
  {
    out := new byte[REPORT_SIZE](_ => 0);
    var sum := c.sha256(sshPublicKey);
    Copy(sum, out);
    assert out[..] == sum + Zeros(32);
  }

  /** Go's copy into the front of a slice. */
  method Copy(src: Bytes, dst: array<byte>)
    requires |src| <= dst.Length
    modifies dst
    ensures dst[..] == src + old(dst[..])[|src|..]
  {
    for i := 0 to |src|
      invariant forall k :: 0 <= k < dst.Length ==> dst[k] == if k < i then src[k] else old(dst[k])
    {
      dst[i] := src[i];
    }
  }

  // ---------- Hexadecimal report data ----------

  function HexValue(ch: char): (v: Option<int>)
    ensures v.Some? ==> 0 <= v.value < 16
  {
    if '0' <= ch <= '9' then Some(ch as int - '0' as int)
    else if 'a' <= ch <= 'f' then Some(ch as int - 'a' as int + 10)
    else if 'A' <= ch <= 'F' then Some(ch as int - 'A' as int + 10)
    else None
  }

  /** The value of a digit is its position among the sixteen, in either case. */
  lemma HexDigits(ch: char)
    ensures forall v :: HexValue(ch) == Some(v) <==>
              0 <= v < 16 && (ch == "0123456789abcdef"[v] || ch == "0123456789ABCDEF"[v])
  {
    assert forall v :: 0 <= v < 10 ==> "0123456789abcdef"[v] as int == '0' as int + v == "0123456789ABCDEF"[v] as int;
    assert forall v :: 10 <= v < 16 ==> "0123456789abcdef"[v] as int == 'a' as int + v - 10;
    assert forall v :: 10 <= v < 16 ==> "0123456789ABCDEF"[v] as int == 'A' as int + v - 10;
  }

  function DecodeHex(s: string): Option<Bytes> {
    if s == "" then Some([])
    else if |s| < 2 || HexValue(s[0]).None? || HexValue(s[1]).None? then None
    else
      match DecodeHex(s[2..])
      case None => None
      case Some(rest) =>
        var b: byte := 16 * HexValue(s[0]).value + HexValue(s[1]).value;
        Some([b] + rest)
  }

  /** s spells the bytes b in base 16, two digits a byte, in either case (section 8 of RFC 4648). */
  predicate Spells(s: string, b: Bytes) {
    && |s| == 2 * |b|
    && forall i :: 0 <= i < |b| ==>
         && HexValue(s[2 * i]) == Some(b[i] / 16)
         && HexValue(s[2 * i + 1]) == Some(b[i] % 16)
  }

  lemma {:induction false} DecodesIffSpells(s: string, b: Bytes)
    ensures DecodeHex(s) == Some(b) <==> Spells(s, b)
  {
    if |s| >= 2 && b != [] {
      DecodesIffSpells(s[2..], b[1..]);
      assert [b[0]] + b[1..] == b;
      if DecodeHex(s) == Some(b) {
        assert DecodeHex(s[2..]).value == b[1..];
        SpellsCons(s, b);
      }
      if Spells(s, b) {
        SpellsTail(s, b);
      }
    }
  }

  lemma DigitsAt(s: string, b: Bytes, i: nat)
    requires Spells(s, b) && i < |b|
    ensures HexValue(s[2 * i]) == Some(b[i] / 16) && HexValue(s[2 * i + 1]) == Some(b[i] % 16)
  {
    var k := 2 * i;
    assert HexValue(s[k]) == Some(b[i] / 16);
  }

  lemma SpellsTail(s: string, b: Bytes)
    requires Spells(s, b) && b != []
    ensures Spells(s[2..], b[1..]) && HexValue(s[0]) == Some(b[0] / 16) && HexValue(s[1]) == Some(b[0] % 16)
  {
    DigitsAt(s, b, 0);
    forall i | 0 <= i < |b[1..]|
      ensures HexValue(s[2..][2 * i]) == Some(b[1..][i] / 16) && HexValue(s[2..][2 * i + 1]) == Some(b[1..][i] % 16) {
      DigitsAt(s, b, i + 1);
    }
  }

  lemma SpellsCons(s: string, b: Bytes)
    requires |s| >= 2 && b != [] && Spells(s[2..], b[1..])
    requires HexValue(s[0]) == Some(b[0] / 16) && HexValue(s[1]) == Some(b[0] % 16)
    ensures Spells(s, b)
  {
    forall i | 0 <= i < |b| ensures HexValue(s[2 * i]) == Some(b[i] / 16) && HexValue(s[2 * i + 1]) == Some(b[i] % 16) {
      if i > 0 { DigitsAt(s[2..], b[1..], i - 1); }
    }
  }

  function TrimPrefix(s: string, prefix: string): string {
    if prefix <= s then s[|prefix|..] else s
  }

  function Pad(b: Bytes): Bytes {
    b + Zeros(if |b| <= REPORT_SIZE then REPORT_SIZE - |b| else 0)
  }

  function ParseReportData(raw: string): Option<Bytes> {
    var text := TrimPrefix(TrimPrefix(TrimSpace(raw), "0x"), "0X");
    match DecodeHex(text)
    case None => None
    case Some(b) => if |b| == 32 || |b| == 64 then Some(Pad(b)) else None
  }

  method ParseReportDataHex(input: string) returns (out: array<byte>, ok: bool)
    ensures fresh(out) && out.Length == REPORT_SIZE
    ensures ok == ParseReportData(input).Some?
    ensures ok ==> out[..] == ParseReportData(input).value
  {
    hide DecodeHex, TrimSpace, TrimPrefix;
    assert DecodeHex("") == Some([]) by { NoDigits(); }
    out := new byte[REPORT_SIZE](_ => 0);
    var raw := TrimSpace(input);
    raw := TrimPrefix(raw, "0x");
    raw := TrimPrefix(raw, "0X");
    if raw == "" {
      return out, false;
    }
    var decoded := DecodeHex(raw);
    if decoded.None? {
      return out, false;
    }
    if |decoded.value| == 32 {
      Copy(decoded.value, out);
      assert out[..] == decoded.value + Zeros(32);
    } else if |decoded.value| == 64 {
      Copy(decoded.value, out);
      assert out[..] == decoded.value + Zeros(0);
    } else {
      return out, false;
    }
    return out, true;
  }

  lemma NoDigits()
    ensures DecodeHex("") == Some([])
  {
  }

  /** The optional prefixes; the two strips in a row also accept both, in this order. */
  predicate HexPrefix(p: string) {
    p == "" || p == "0x" || p == "0X" || p == "0x0X"
  }

  /** Stripping a prefix never eats hexadecimal data. */
  lemma PrefixStripped(p: string, h: string, b: Bytes)
    requires HexPrefix(p) && Spells(h, b)
    ensures TrimPrefix(TrimPrefix(p + h, "0x"), "0X") == h
  {
    if h != "" {
      DigitsAt(h, b, 0);
      assert h[1] != 'x' && h[1] != 'X';
    }
    var s := p + h;
    if p == "0x" {
      assert s[2..] == h;
    } else if p == "0X" {
      assert s[1] == 'X' && s[2..] == h;
    } else if p == "0x0X" {
      assert s[2..] == "0X" + h && ("0X" + h)[2..] == h;
    } else {
      assert s == h;
    }
  }

  lemma StripLeavesPrefix(s: string) returns (p: string)
    ensures HexPrefix(p) && s == p + TrimPrefix(TrimPrefix(s, "0x"), "0X")
  {
    var t := TrimPrefix(s, "0x");
    p := (if "0x" <= s then "0x" else "") + (if "0X" <= t then "0X" else "");
  }

  /** Exactly what is accepted: white space, an optional prefix, and the hexadecimal spelling
      of 32 or 64 bytes; the result is those bytes, zero-padded. */
  lemma ParsesExactly(raw: string, out: Bytes)
    ensures ParseReportData(raw) == Some(out) <==>
              exists p, h, b :: && HexPrefix(p) && TrimSpace(raw) == p + h && Spells(h, b)
                                && (|b| == 32 || |b| == 64) && out == Pad(b)
  {
    if ParseReportData(raw) == Some(out) {
      var p := StripLeavesPrefix(TrimSpace(raw));
      var h := TrimPrefix(TrimPrefix(TrimSpace(raw), "0x"), "0X");
      var b := DecodeHex(h).value;
      DecodesIffSpells(h, b);
      assert HexPrefix(p) && TrimSpace(raw) == p + h && Spells(h, b);
    } else {
      forall p, h, b | HexPrefix(p) && TrimSpace(raw) == p + h && Spells(h, b) && (|b| == 32 || |b| == 64)
        ensures out != Pad(b) {
        PrefixStripped(p, h, b);
        DecodesIffSpells(h, b);
      }
    }
  }

  /** Parsing undoes printing, with or without a prefix and whatever white space surrounds it. */
  lemma ParseUndoesPrint(left: string, p: string, h: string, right: string, b: Bytes)
    requires AllSpace(left) && AllSpace(right) && HexPrefix(p) && Spells(h, b) && (|b| == 32 || |b| == 64)
    ensures ParseReportData(left + (p + h) + right) == Some(Pad(b))
  {
    var core := p + h;
    DigitsAt(h, b, 0);
    DigitsAt(h, b, |b| - 1);
    assert core[|core| - 1] == h[2 * (|b| - 1) + 1];
    TrimPadding(left, core, right);
    ParsesExactly(left + core + right, Pad(b));
  }

  // ---------- The strict verifier ----------

  datatype DcapResult = DcapResult(quoteValid: bool, qeIdentityValid: bool, tcbValid: bool, reportData: Bytes)

  predicate StrictFlags(r: DcapResult) {
    r.quoteValid && r.qeIdentityValid && r.tcbValid
  }

  /** `dcap` is the quote verifier's answer, None if it failed. No objection means trusted. */
  function StrictVerify(c: Primitives, p: StaticPolicy, dcap: Option<DcapResult>, b: Bundle): Verdict {
    match dcap
    case None => Some(AttestationDependencyFailure)
    case Some(r) =>
      if !StrictFlags(r) then Some(QuoteInvalid)
      else if CheckMeasurements(p, b) != None then CheckMeasurements(p, b)
      else if r.reportData != ExpectedReportData(c, b.sshPublicKey) then Some(ReportDataMismatch)
      else None
  }

  /** With the report data taken from text, a key is trusted exactly when all flags hold, the
      policy allows the measurements, and the text spells the key's hash, alone or followed by
      32 zero bytes. */
  lemma TrustedIff(c: Primitives, p: StaticPolicy, r: DcapResult, text: string, b: Bundle)
    requires HashesAreSized(c) && ParseReportData(text) == Some(r.reportData)
    ensures StrictVerify(c, p, Some(r), b) == None <==>
              && StrictFlags(r)
              && (p.mrtd != {} ==> b.mrtd in p.mrtd) && (p.rtmr3 != {} ==> b.rtmr3 in p.rtmr3)
              && b.rtmr0 != "" && b.rtmr1 != "" && b.rtmr2 != ""
              && exists pre, h, bytes :: && HexPrefix(pre) && TrimSpace(text) == pre + h && Spells(h, bytes)
                                         && (bytes == c.sha256(b.sshPublicKey)
                                             || bytes == c.sha256(b.sshPublicKey) + Zeros(32))
  {
    var sum := c.sha256(b.sshPublicKey);
    assert |sum| == HASH_SIZE;
    ParsesExactly(text, r.reportData);
    forall pre, h, bytes | HexPrefix(pre) && TrimSpace(text) == pre + h && Spells(h, bytes)
                           && (|bytes| == 32 || |bytes| == 64)
      ensures r.reportData == ExpectedReportData(c, b.sshPublicKey) <==> bytes == sum || bytes == sum + Zeros(32) {
      PrefixStripped(pre, h, bytes);
      DecodesIffSpells(h, bytes);
      assert r.reportData == Pad(bytes);
      PadIs(bytes, sum);
    }
  }

  lemma PadIs(b: Bytes, sum: Bytes)
    requires |sum| == 32 && (|b| == 32 || |b| == 64)
    ensures Pad(b) == sum + Zeros(32) <==> b == sum || b == sum + Zeros(32)
  {
    if |b| == 32 {
      assert Pad(b)[..32] == b && (sum + Zeros(32))[..32] == sum;
    } else {
      assert Pad(b) == b;
    }
  }
}
