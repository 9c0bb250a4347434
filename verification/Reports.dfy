/** What a run of the connection flow does, for every way the outside world can answer: which
    calls it makes, and which report it ends with. Stated on the answers alone. */
module Reports {
  import opened Wrappers
  import opened Text
  import opened Crypto
  import opened Verify
  import opened Requests
  import opened Flow

  // ---------- The payload's fields ----------

  lemma FieldRead(m: JsonObject, key: string)
    ensures key in m && m[key].Str? ==> StringField(m, key) == m[key].value
    ensures key !in m || m[key].Other? ==> StringField(m, key) == ""
  {
  }

  /** A payload is usable exactly when it has a key and a quote; every field comes from the entry
      of its own name. */
  lemma PayloadFields(m: JsonObject)
    ensures ParseBundlePayload(m).Some? <==> StringField(m, "ssh_public_key") != "" && StringField(m, "quote_hex") != ""
    ensures ParseBundlePayload(m).Some? ==>
              var b := ParseBundlePayload(m).value;
              && b.sshPublicKey == StringField(m, "ssh_public_key") && b.quoteHex == StringField(m, "quote_hex")
              && b.mrtd == StringField(m, "mrtd") && b.rtmr0 == StringField(m, "rtmr0")
              && b.rtmr1 == StringField(m, "rtmr1") && b.rtmr2 == StringField(m, "rtmr2")
              && b.rtmr3 == StringField(m, "rtmr3") && b.connectorId == StringField(m, "connector_id")
              && b.reportDataExpected == StringField(m, "report_data_expected_sha256")
              && b.policyVersion == StringField(m, "policy_version")
  {
    hide StringField;
  }

  // ---------- The checks, one by one ----------

  /** Non-empty bytes, signed under the key trusted for the kid, that read as a usable payload. */
  ghost predicate BundleGood(dev: Device, a: Answers, msg: Message) {
    && a.keys.Keys? && msg.raw != [] && TrimSpace(msg.alg) == "ed25519"
    && TrimSpace(msg.kid) != "" && TrimSpace(msg.kid) in a.keys.trusted
    && SignedUnder(dev.crypto, msg.raw, msg.signature, a.keys.trusted[TrimSpace(msg.kid)])
    && Field(dev, msg, "ssh_public_key") != "" && Field(dev, msg, "quote_hex") != ""
  }

  function Field(dev: Device, msg: Message, key: string): string {
    StringField(dev.parse(msg.raw), key)
  }

  predicate FlagsHold(r: DcapResult) {
    r.quoteValid && r.qeIdentityValid && r.tcbValid
  }

  predicate MeasurementsAllowed(dev: Device, msg: Message) {
    && (dev.policy.mrtd == {} || Field(dev, msg, "mrtd") in dev.policy.mrtd)
    && (dev.policy.rtmr3 == {} || Field(dev, msg, "rtmr3") in dev.policy.rtmr3)
    && Field(dev, msg, "rtmr0") != "" && Field(dev, msg, "rtmr1") != "" && Field(dev, msg, "rtmr2") != ""
  }

  predicate QuoteBindsKey(dev: Device, msg: Message, r: DcapResult) {
    r.reportData == dev.crypto.sha256(Field(dev, msg, "ssh_public_key")) + Zeros(32)
  }

  /** The installer was called with a user and a key that is not blank, and succeeded. */
  predicate KeyInstalled(dev: Device, req: Request, a: Answers, msg: Message) {
    a.installOk && req.localUser != "" && TrimSpace(Field(dev, msg, "ssh_public_key")) != ""
  }

  lemma UnpackedIffGood(dev: Device, a: Answers, msg: Message)
    requires a.keys.Keys?
    ensures Unpack(dev, msg, a.keys.trusted).Some? <==> BundleGood(dev, a, msg)
    ensures Unpack(dev, msg, a.keys.trusted).Some? ==>
              Unpack(dev, msg, a.keys.trusted) == ParseBundlePayload(dev.parse(msg.raw))
  {
    AcceptedIffSigned(dev.crypto, msg.raw, msg.signature, msg.alg, msg.kid, a.keys.trusted);
    PayloadFields(dev.parse(msg.raw));
    hide VerifySignedBundleWithKeyset, ParseBundlePayload, SignedUnder, TrimSpace;
  }

  /** The verdict on a usable payload, and the reason of the first check that fails. */
  lemma VerdictIs(dev: Device, a: Answers, msg: Message)
    requires ParseBundlePayload(dev.parse(msg.raw)).Some?
    ensures var v := StrictVerify(dev.crypto, dev.policy, a.dcap, ParseBundlePayload(dev.parse(msg.raw)).value);
            if a.dcap.None? then v.Some? && ReasonCode(v.value) == "AttestationDependencyFailure"
            else if !FlagsHold(a.dcap.value) then v.Some? && ReasonCode(v.value) == "QuoteInvalid"
            else if !MeasurementsAllowed(dev, msg) then v.Some? && ReasonCode(v.value) == "MeasurementMismatch"
            else if !QuoteBindsKey(dev, msg, a.dcap.value) then v.Some? && ReasonCode(v.value) == "ReportDataMismatch"
            else v == None
  {
    PayloadFields(dev.parse(msg.raw));
    hide ParseBundlePayload, StringField;
  }

  // ---------- Runs ----------

  /** Runs that do not come to hold a bundle: a failed prompt, a refusal, which is always posted,
      an approval the store did not take, a bundle that did not arrive. */
  lemma EarlyEnds(dev: Device, req: Request, a: Answers)
    ensures var run := RunFrom(dev, req, AskUser, a);
            && (a.user == None ==> run == Ending([Asked], false))
            && (a.user == Some(false) ==> run == Ending([Asked, Decided(req.id, false)], false))
            && (a.user == Some(true) && !a.decisionOk ==> run == Ending([Asked, Decided(req.id, true)], false))
            && (a.user == Some(true) && a.decisionOk && a.bundle == None ==>
                  run == Ending([Asked, Decided(req.id, true), BundleFetched(req.id)], false))
  {
    assert RunFrom(dev, req, Done(false), a) == Ending([], false);
    assert a.user == Some(true) && a.decisionOk && a.bundle == None ==>
      RunFrom(dev, req, FetchBundle, a) == Ending([BundleFetched(req.id)], false);
    assert a.user.Some? ==> !a.decisionOk || !a.user.value ==>
      RunFrom(dev, req, PostDecision(a.user.value), a) == Ending([Decided(req.id, a.user.value)], false);
    assert a.user == Some(true) && a.decisionOk && a.bundle == None ==>
      RunFrom(dev, req, PostDecision(true), a).effects == [Decided(req.id, true), BundleFetched(req.id)];
  }

  /** The run makes these calls after the lookup of the keys, and then exactly this report. */
  predicate Ends(dev: Device, req: Request, a: Answers, calls: seq<Effect>, status: Status, reason: string) {
    RunFrom(dev, req, AskUser, a) ==
      Ending([Asked, Decided(req.id, true), BundleFetched(req.id), KeysLookedUp] + calls + [Reported(req.id, status, reason)],
             status == Status.Connected && a.resultOk)
  }

  /** From this stage the run makes these calls, and then exactly this report. */
  predicate Left(dev: Device, req: Request, stage: Stage, a: Answers, calls: seq<Effect>, status: Status, reason: string) {
    RunFrom(dev, req, stage, a) ==
      Ending(calls + [Reported(req.id, status, reason)], status == Status.Connected && a.resultOk)
  }

  lemma LeftToReport(dev: Device, req: Request, a: Answers, status: Status, reason: string)
    ensures Left(dev, req, PostResult(status, reason), a, [], status, reason)
  {
    var ok := status == Status.Connected && a.resultOk;
    assert RunFrom(dev, req, Done(ok), a) == Ending([], ok);
    assert [] + [Reported(req.id, status, reason)] == [Reported(req.id, status, reason)] + [];
  }

  lemma LeftBefore(dev: Device, req: Request, stage: Stage, a: Answers, e: Effect, calls: seq<Effect>, status: Status, reason: string)
    requires !stage.Done? && EffectOf(req, stage) == [e]
    requires Left(dev, req, Next(dev, req, stage, a), a, calls, status, reason)
    ensures Left(dev, req, stage, a, [e] + calls, status, reason)
  {
    hide Next, EffectOf;
    assert [e] + (calls + [Reported(req.id, status, reason)]) == [e] + calls + [Reported(req.id, status, reason)];
  }

  lemma LeftAfterFetch(dev: Device, req: Request, a: Answers, msg: Message, calls: seq<Effect>, status: Status, reason: string)
    requires a.user == Some(true) && a.decisionOk && a.bundle == Some(msg)
    requires Left(dev, req, LookUpKeys(msg), a, [KeysLookedUp] + calls, status, reason)
    ensures Ends(dev, req, a, calls, status, reason)
  {
    hide Left;
    LeftBefore(dev, req, FetchBundle, a, BundleFetched(req.id), [KeysLookedUp] + calls, status, reason);
    LeftBefore(dev, req, PostDecision(true), a, Decided(req.id, true), [BundleFetched(req.id)] + ([KeysLookedUp] + calls), status, reason);
    var later := [Decided(req.id, true)] + ([BundleFetched(req.id)] + ([KeysLookedUp] + calls));
    LeftBefore(dev, req, AskUser, a, Asked, later, status, reason);
    LeftIsEnds(dev, req, a, calls, status, reason);
  }

  lemma LeftIsEnds(dev: Device, req: Request, a: Answers, calls: seq<Effect>, status: Status, reason: string)
    requires Left(dev, req, AskUser, a, [Asked] + ([Decided(req.id, true)] + ([BundleFetched(req.id)] + ([KeysLookedUp] + calls))),
                  status, reason)
    ensures Ends(dev, req, a, calls, status, reason)
  {
    hide RunFrom;
    Flatten(Asked, Decided(req.id, true), BundleFetched(req.id), KeysLookedUp, calls);
  }

  lemma Flatten(a: Effect, b: Effect, c: Effect, d: Effect, calls: seq<Effect>)
    ensures [a] + ([b] + ([c] + ([d] + calls))) == [a, b, c, d] + calls
  {
    assert [c] + ([d] + calls) == [c, d] + calls;
    assert [b] + ([c, d] + calls) == [b, c, d] + calls;
    assert [a] + ([b, c, d] + calls) == [a, b, c, d] + calls;
  }

  /** Once the user approved, the post was taken and a bundle arrived, the run always reports, and
      says why: "connected" exactly when every check passed and the key was installed, otherwise
      "verification_failed" with the reason of the first check that failed. */
  lemma ReportIs(dev: Device, req: Request, a: Answers, msg: Message)
    requires a.user == Some(true) && a.decisionOk && a.bundle == Some(msg)
    ensures var checked := [QuoteChecked(Field(dev, msg, "quote_hex"))];
            var tried := checked + [InstallTried(req.localUser, Field(dev, msg, "ssh_public_key"))];
            var failed := Status.VerificationFailed;
            if !BundleGood(dev, a, msg) then Ends(dev, req, a, [], failed, "BundleInvalid")
            else if a.dcap.None? then Ends(dev, req, a, checked, failed, "AttestationDependencyFailure")
            else if !FlagsHold(a.dcap.value) then Ends(dev, req, a, checked, failed, "QuoteInvalid")
            else if !MeasurementsAllowed(dev, msg) then Ends(dev, req, a, checked, failed, "MeasurementMismatch")
            else if !QuoteBindsKey(dev, msg, a.dcap.value) then Ends(dev, req, a, checked, failed, "ReportDataMismatch")
            else if !KeyInstalled(dev, req, a, msg) then Ends(dev, req, a, tried, failed, "TransportFailure")
            else Ends(dev, req, a, tried, Status.Connected, "")
  {
    if BundleGood(dev, a, msg) {
      UnpackedIffGood(dev, a, msg);
      VerdictIs(dev, a, msg);
      PayloadFields(dev.parse(msg.raw));
      GoodBundleReport(dev, req, a, msg, ParseBundlePayload(dev.parse(msg.raw)).value);
    } else {
      if a.keys.Keys? { UnpackedIffGood(dev, a, msg); }
      BadBundleReport(dev, req, a, msg);
    }
  }

  lemma BadBundleReport(dev: Device, req: Request, a: Answers, msg: Message)
    requires a.user == Some(true) && a.decisionOk && a.bundle == Some(msg)
    requires !a.keys.Keys? || Unpack(dev, msg, a.keys.trusted).None?
    ensures Ends(dev, req, a, [], Status.VerificationFailed, "BundleInvalid")
  {
    hide Unpack, Left, Ends;
    LeftToReport(dev, req, a, Status.VerificationFailed, "BundleInvalid");
    LeftBefore(dev, req, LookUpKeys(msg), a, KeysLookedUp, [], Status.VerificationFailed, "BundleInvalid");
    LeftAfterFetch(dev, req, a, msg, [], Status.VerificationFailed, "BundleInvalid");
  }

  /** The report on a bundle that unpacked, read off the verdict and the installer's answer. */
  lemma GoodBundleReport(dev: Device, req: Request, a: Answers, msg: Message, b: Bundle)
    requires a.user == Some(true) && a.decisionOk && a.bundle == Some(msg)
    requires a.keys.Keys? && Unpack(dev, msg, a.keys.trusted) == Some(b)
    ensures var v := StrictVerify(dev.crypto, dev.policy, a.dcap, b);
            var checked := [QuoteChecked(b.quoteHex)];
            var tried := checked + [InstallTried(req.localUser, b.sshPublicKey)];
            if v.Some? then Ends(dev, req, a, checked, Status.VerificationFailed, ReasonCode(v.value))
            else if !(a.installOk && req.localUser != "" && TrimSpace(b.sshPublicKey) != "")
            then Ends(dev, req, a, tried, Status.VerificationFailed, "TransportFailure")
            else Ends(dev, req, a, tried, Status.Connected, "")
  {
    hide Unpack, StrictVerify, Left, Ends, TrimSpace, ReasonCode;
    var v := StrictVerify(dev.crypto, dev.policy, a.dcap, b);
    var quote := CheckQuote(msg, a.keys.trusted, b);
    if v.Some? {
      VerdictReport(dev, req, a, msg, b, [], Status.VerificationFailed, ReasonCode(v.value));
    } else {
      TrustNeedsQuote(dev, a.dcap, b);
      var install := InstallKey(msg, a.keys.trusted, b, a.dcap.value);
      var ok := a.installOk && req.localUser != "" && TrimSpace(b.sshPublicKey) != "";
      var status := if ok then Status.Connected else Status.VerificationFailed;
      var reason := if ok then "" else "TransportFailure";
      LeftToReport(dev, req, a, status, reason);
      LeftBefore(dev, req, install, a, InstallTried(req.localUser, b.sshPublicKey), [], status, reason);
      OneCall(InstallTried(req.localUser, b.sshPublicKey));
      LeftBefore(dev, req, quote, a, QuoteChecked(b.quoteHex), [InstallTried(req.localUser, b.sshPublicKey)], status, reason);
      var tried := [QuoteChecked(b.quoteHex)] + [InstallTried(req.localUser, b.sshPublicKey)];
      LeftBefore(dev, req, LookUpKeys(msg), a, KeysLookedUp, tried, status, reason);
      LeftAfterFetch(dev, req, a, msg, tried, status, reason);
    }
  }

  lemma OneCall(e: Effect)
    ensures [e] + [] == [e]
  {
  }

  lemma VerdictReport(dev: Device, req: Request, a: Answers, msg: Message, b: Bundle, none: seq<Effect>, status: Status, reason: string)
    requires a.user == Some(true) && a.decisionOk && a.bundle == Some(msg) && none == []
    requires a.keys.Keys? && Unpack(dev, msg, a.keys.trusted) == Some(b)
    requires var v := StrictVerify(dev.crypto, dev.policy, a.dcap, b);
             v.Some? && status == Status.VerificationFailed && reason == ReasonCode(v.value)
    ensures Ends(dev, req, a, [QuoteChecked(b.quoteHex)], status, reason)
  {
    hide Unpack, StrictVerify, Left, Ends, ReasonCode;
    LeftToReport(dev, req, a, status, reason);
    LeftBefore(dev, req, CheckQuote(msg, a.keys.trusted, b), a, QuoteChecked(b.quoteHex), [], status, reason);
    OneCall(QuoteChecked(b.quoteHex));
    LeftBefore(dev, req, LookUpKeys(msg), a, KeysLookedUp, [QuoteChecked(b.quoteHex)], status, reason);
    LeftAfterFetch(dev, req, a, msg, [QuoteChecked(b.quoteHex)], status, reason);
  }

  /** In such a run exactly one report is made, and it is the last call; it says "connected"
      exactly when an install was tried and succeeded. */
  lemma OneReportLast(dev: Device, req: Request, a: Answers, msg: Message)
    requires a.user == Some(true) && a.decisionOk && a.bundle == Some(msg)
    ensures var effects := RunFrom(dev, req, AskUser, a).effects;
            var last := |effects| - 1;
            && |effects| > 0 && effects[last].Reported? && effects[last].id == req.id
            && (forall i :: 0 <= i < last ==> !effects[i].Reported?)
            && (effects[last].status == Status.Connected <==>
                  (exists i :: 0 <= i < last && effects[i].InstallTried?) && KeyInstalled(dev, req, a, msg))
            && (effects[last].status != Status.Connected ==>
                  effects[last].status == Status.VerificationFailed && effects[last].reason != "")
  {
    var calls, status, reason := ReportShape(dev, req, a, msg);
    EndsMeans(dev, req, a, calls, status, reason);
    hide RunFrom, Ends, KeyInstalled;
  }

  lemma ReportShape(dev: Device, req: Request, a: Answers, msg: Message) returns (calls: seq<Effect>, status: Status, reason: string)
    requires a.user == Some(true) && a.decisionOk && a.bundle == Some(msg)
    ensures Ends(dev, req, a, calls, status, reason) && CheckAndTry(calls)
    ensures if status == Status.Connected then |calls| == 2 && KeyInstalled(dev, req, a, msg)
            else status == Status.VerificationFailed && reason != "" && !(|calls| == 2 && KeyInstalled(dev, req, a, msg))
  {
    ReportIs(dev, req, a, msg);
    hide BundleGood, FlagsHold, MeasurementsAllowed, QuoteBindsKey, KeyInstalled, RunFrom, Field, Ends;
    var checked := [QuoteChecked(Field(dev, msg, "quote_hex"))];
    var tried := checked + [InstallTried(req.localUser, Field(dev, msg, "ssh_public_key"))];
    status := Status.VerificationFailed;
    if !BundleGood(dev, a, msg) {
      calls, reason := [], "BundleInvalid";
    } else if a.dcap.None? {
      calls, reason := checked, "AttestationDependencyFailure";
    } else if !FlagsHold(a.dcap.value) {
      calls, reason := checked, "QuoteInvalid";
    } else if !MeasurementsAllowed(dev, msg) {
      calls, reason := checked, "MeasurementMismatch";
    } else if !QuoteBindsKey(dev, msg, a.dcap.value) {
      calls, reason := checked, "ReportDataMismatch";
    } else if !KeyInstalled(dev, req, a, msg) {
      calls, reason := tried, "TransportFailure";
    } else {
      calls, status, reason := tried, Status.Connected, "";
    }
  }

  /** The calls between lookup and report: at most the quote's and then the installer's. */
  predicate CheckAndTry(calls: seq<Effect>) {
    && |calls| <= 2 && (|calls| > 0 ==> calls[0].QuoteChecked?) && (|calls| > 1 ==> calls[1].InstallTried?)
  }

  ghost predicate LastIs(effects: seq<Effect>, id: string, calls: seq<Effect>, status: Status, reason: string) {
    var last := |effects| - 1;
    && |effects| > 0 && effects[last] == Reported(id, status, reason)
    && (forall i :: 0 <= i < last ==> !effects[i].Reported?)
    && ((exists i :: 0 <= i < last && effects[i].InstallTried?) <==> |calls| == 2)
  }

  lemma EndsMeans(dev: Device, req: Request, a: Answers, calls: seq<Effect>, status: Status, reason: string)
    requires Ends(dev, req, a, calls, status, reason) && CheckAndTry(calls)
    ensures LastIs(RunFrom(dev, req, AskUser, a).effects, req.id, calls, status, reason)
  {
    hide RunFrom;
    var effects := RunFrom(dev, req, AskUser, a).effects;
    var last := |effects| - 1;
    assert effects[..last] == [Asked, Decided(req.id, true), BundleFetched(req.id), KeysLookedUp] + calls;
    forall i | 0 <= i < last ensures effects[i] == effects[..last][i] {}
    if |calls| == 2 { assert effects[5].InstallTried?; }
  }

  // ---------- What reaches the store ----------

  /** The call a device makes on the store is the one its run records, with the same id and the
      same arguments: a refusal is posted as a refusal, a report as made. */
  lemma CallsMatchEffects(req: Request, stage: Stage)
    ensures forall id, approved :: EffectOf(req, stage) == [Decided(id, approved)] <==>
              id == req.id && PendingOp(req, stage) == Some(OnRequest(Decide(id, approved)))
    ensures forall id, status, reason :: EffectOf(req, stage) == [Reported(id, status, reason)] <==>
              id == req.id && PendingOp(req, stage) == Some(OnRequest(Report(id, status, reason)))
    ensures EffectOf(req, stage) == [BundleFetched(req.id)] <==> PendingOp(req, stage) == Some(OnRequest(Get(req.id)))
  {
  }
}
