/** The device's connection flow, step by step, and its composition with the durable store. */
module Flow {
  import opened Wrappers
  import opened Text
  import opened Crypto
  import opened Verify
  import opened Requests
  import opened StoreInvariants
  import opened Durable

  // ---------- One run of Process ----------

  datatype Json = Str(value: string) | Other

  type JsonObject = map<string, Json>

  /** A bundle as received: the exact payload bytes, and what came with them. */
  datatype Message = Message(raw: Bytes, signature: string, alg: string, kid: string)

  datatype Request = Request(id: string, connectorId: string, localUser: string)

  /** What the device is configured with; `parse` reads a payload's bytes as JSON. */
  datatype Device = Device(crypto: Primitives, policy: StaticPolicy, parse: Bytes -> JsonObject)

  datatype KeyAnswer = NoSource | LookupFailed | Keys(trusted: KeyMap)

  /** Everything the outside world answers during a run. */
  datatype Answers = Answers(
    user: Option<bool>,             // None: the prompt failed
    decisionOk: bool,
    bundle: Option<Message>,
    keys: KeyAnswer,
    dcap: Option<DcapResult>,
    installOk: bool,
    resultOk: bool)

  datatype Stage =
    | AskUser
    | PostDecision(approved: bool)
    | FetchBundle
    | LookUpKeys(msg: Message)
    | CheckQuote(msg: Message, trusted: KeyMap, bundle: Bundle)
    | InstallKey(msg: Message, trusted: KeyMap, bundle: Bundle, dcap: DcapResult)
    | PostResult(status: Status, reason: string)
    | Done(ok: bool)

  function StringField(m: JsonObject, key: string): string {
    if key in m && m[key].Str? then m[key].value else ""
  }

  function ParseBundlePayload(m: JsonObject): Option<Bundle> {
    var b := Bundle(StringField(m, "connector_id"), StringField(m, "ssh_public_key"), StringField(m, "quote_hex"),
                    StringField(m, "mrtd"), StringField(m, "rtmr0"), StringField(m, "rtmr1"), StringField(m, "rtmr2"),
                    StringField(m, "rtmr3"), StringField(m, "report_data_expected_sha256"), StringField(m, "policy_version"));
    if b.sshPublicKey == "" || b.quoteHex == "" then None else Some(b)
  }

  function ReasonCode(r: Reason): string {
    match r
    case AttestationDependencyFailure => "AttestationDependencyFailure"
    case BundleInvalid => "BundleInvalid"
    case QuoteInvalid => "QuoteInvalid"
    case MeasurementMismatch => "MeasurementMismatch"
    case ReportDataMismatch => "ReportDataMismatch"
  }

  /** The signature check and the payload's parsing, once the keys are known. */
  function Unpack(dev: Device, msg: Message, trusted: KeyMap): Option<Bundle> {
    if VerifySignedBundleWithKeyset(dev.crypto, msg.raw, msg.signature, msg.alg, msg.kid, trusted) != None then None
    else ParseBundlePayload(dev.parse(msg.raw))
  }

  /** The key file needs a user and a key that is not blank. */
  predicate Installs(req: Request, b: Bundle, ok: bool) {
    ok && req.localUser != "" && !Blank(b.sshPublicKey)
  }

  /** One step: make the pending call, take its answer, decide what comes next. */
  function Next(dev: Device, req: Request, stage: Stage, a: Answers): Stage {
    match stage
    case AskUser => if a.user.None? then Done(false) else PostDecision(a.user.value)
    case PostDecision(approved) => if a.decisionOk && approved then FetchBundle else Done(false)
    case FetchBundle => if a.bundle.None? then Done(false) else LookUpKeys(a.bundle.value)
    case LookUpKeys(msg) =>
      if !a.keys.Keys? then PostResult(Status.VerificationFailed, "BundleInvalid")
      else if Unpack(dev, msg, a.keys.trusted).None? then PostResult(Status.VerificationFailed, "BundleInvalid")
      else CheckQuote(msg, a.keys.trusted, Unpack(dev, msg, a.keys.trusted).value)
    case CheckQuote(msg, trusted, b) =>
      (match StrictVerify(dev.crypto, dev.policy, a.dcap, b)
       case Some(reason) => PostResult(Status.VerificationFailed, ReasonCode(reason))
       case None => InstallKey(msg, trusted, b, a.dcap.value))
    case InstallKey(_, _, b, _) =>
      if Installs(req, b, a.installOk) then PostResult(Status.Connected, "")
      else PostResult(Status.VerificationFailed, "TransportFailure")
    case PostResult(status, _) => Done(status == Status.Connected && a.resultOk)
    case Done(ok) => stage
  }

  function Rank(stage: Stage): nat {
    match stage
    case AskUser => 7
    case PostDecision(_) => 6
    case FetchBundle => 5
    case LookUpKeys(_) => 4
    case CheckQuote(_, _, _) => 3
    case InstallKey(_, _, _, _) => 2
    case PostResult(_, _) => 1
    case Done(_) => 0
  }

  /** What a run does to the world, in order. */
  datatype Effect =
    | Asked
    | Decided(id: string, approved: bool)
    | BundleFetched(id: string)
    | KeysLookedUp
    | QuoteChecked(quoteHex: string)
    | InstallTried(user: string, key: string)
    | Reported(id: string, status: Status, reason: string)

  function EffectOf(req: Request, stage: Stage): seq<Effect> {
    match stage
    case AskUser => [Asked]
    case PostDecision(approved) => [Decided(req.id, approved)]
    case FetchBundle => [BundleFetched(req.id)]
    case LookUpKeys(_) => [KeysLookedUp]
    case CheckQuote(_, _, b) => [QuoteChecked(b.quoteHex)]
    case InstallKey(_, _, b, _) => [InstallTried(req.localUser, b.sshPublicKey)]
    case PostResult(status, reason) => [Reported(req.id, status, reason)]
    case Done(_) => []
  }

  datatype Ending = Ending(effects: seq<Effect>, ok: bool)

  /** Everything that happens from `stage` on. */
  function RunFrom(dev: Device, req: Request, stage: Stage, a: Answers): Ending
    decreases Rank(stage)
  {
    if stage.Done? then Ending([], stage.ok)
    else
      var rest := RunFrom(dev, req, Next(dev, req, stage, a), a);
      Ending(EffectOf(req, stage) + rest.effects, rest.ok)
  }

  /** So far these effects; the rest of the run starts at `stage`. */
  ghost predicate Reached(dev: Device, req: Request, a: Answers, effects: seq<Effect>, stage: Stage) {
    var rest := RunFrom(dev, req, stage, a);
    RunFrom(dev, req, AskUser, a) == Ending(effects + rest.effects, rest.ok)
  }

  lemma Onward(dev: Device, req: Request, a: Answers, effects: seq<Effect>, stage: Stage)
    requires Reached(dev, req, a, effects, stage) && !stage.Done?
    ensures Reached(dev, req, a, effects + EffectOf(req, stage), Next(dev, req, stage, a))
  {
    hide Next;
    var rest := RunFrom(dev, req, Next(dev, req, stage, a), a);
    assert effects + (EffectOf(req, stage) + rest.effects) == effects + EffectOf(req, stage) + rest.effects;
  }

  /** Report the failure, ignoring whether that worked, and fail. */
  method Refuse(dev: Device, req: Request, a: Answers, reason: string, before: seq<Effect>) returns (effects: seq<Effect>)
    requires Reached(dev, req, a, before, PostResult(Status.VerificationFailed, reason))
    ensures RunFrom(dev, req, AskUser, a) == Ending(effects, false)
  {
    hide RunFrom, Reached;
    Onward(dev, req, a, before, PostResult(Status.VerificationFailed, reason));
    effects := before + [Reported(req.id, Status.VerificationFailed, reason)];
    DoneReached(dev, req, a, effects, false);
  }

  /** Process as written, straight-line code with early exits: it performs exactly the effects
      of the step machine, in the same order, and ends with the same verdict. */
  method Process(dev: Device, req: Request, a: Answers) returns (ok: bool, effects: seq<Effect>)
    ensures RunFrom(dev, req, AskUser, a) == Ending(effects, ok)
  {
    hide RunFrom, Unpack, StrictVerify, Reached;
    assert Reached(dev, req, a, [], AskUser) by { StartReached(dev, req, a); }
    Onward(dev, req, a, [], AskUser);
    effects := [Asked];
    assert [] + [Asked] == effects;
    if a.user.None? {
      DoneReached(dev, req, a, effects, false);
      return false, effects;
    }
    var approved := a.user.value;

    Onward(dev, req, a, effects, PostDecision(approved));
    effects := effects + [Decided(req.id, approved)];
    if !a.decisionOk {
      DoneReached(dev, req, a, effects, false);
      return false, effects;
    }
    if !approved {
      DoneReached(dev, req, a, effects, false);
      return false, effects;
    }

    Onward(dev, req, a, effects, FetchBundle);
    effects := effects + [BundleFetched(req.id)];
    if a.bundle.None? {
      DoneReached(dev, req, a, effects, false);
      return false, effects;
    }
    var msg := a.bundle.value;

    Onward(dev, req, a, effects, LookUpKeys(msg));
    effects := effects + [KeysLookedUp];
    if !a.keys.Keys? {
      effects := Refuse(dev, req, a, "BundleInvalid", effects);
      return false, effects;
    }
    var bundle := Unpack(dev, msg, a.keys.trusted);
    if bundle.None? {
      effects := Refuse(dev, req, a, "BundleInvalid", effects);
      return false, effects;
    }

    Onward(dev, req, a, effects, CheckQuote(msg, a.keys.trusted, bundle.value));
    effects := effects + [QuoteChecked(bundle.value.quoteHex)];
    var verdict := StrictVerify(dev.crypto, dev.policy, a.dcap, bundle.value);
    if verdict.Some? {
      effects := Refuse(dev, req, a, ReasonCode(verdict.value), effects);
      return false, effects;
    }
    TrustNeedsQuote(dev, a.dcap, bundle.value);

    Onward(dev, req, a, effects, InstallKey(msg, a.keys.trusted, bundle.value, a.dcap.value));
    effects := effects + [InstallTried(req.localUser, bundle.value.sshPublicKey)];
    if !Installs(req, bundle.value, a.installOk) {
      effects := Refuse(dev, req, a, "TransportFailure", effects);
      return false, effects;
    }

    Onward(dev, req, a, effects, PostResult(Status.Connected, ""));
    effects := effects + [Reported(req.id, Status.Connected, "")];
    DoneReached(dev, req, a, effects, a.resultOk);
    return a.resultOk, effects;
  }

  lemma StartReached(dev: Device, req: Request, a: Answers)
    ensures Reached(dev, req, a, [], AskUser)
  {
    assert [] + RunFrom(dev, req, AskUser, a).effects == RunFrom(dev, req, AskUser, a).effects;
  }

  lemma DoneReached(dev: Device, req: Request, a: Answers, effects: seq<Effect>, ok: bool)
    requires Reached(dev, req, a, effects, Done(ok))
    ensures RunFrom(dev, req, AskUser, a) == Ending(effects, ok)
  {
    assert effects + [] == effects;
  }

  lemma TrustNeedsQuote(dev: Device, dcap: Option<DcapResult>, b: Bundle)
    requires StrictVerify(dev.crypto, dev.policy, dcap, b) == None
    ensures dcap.Some?
  {
  }

  // ---------- What the checks look at ----------

  /** The fields of a payload that the code reads. */
  const FIELDS := ["connector_id", "ssh_public_key", "quote_hex", "mrtd", "rtmr0", "rtmr1", "rtmr2", "rtmr3",
                   "report_data_expected_sha256", "policy_version"]

  /** The payloads agree on those fields; they may differ in everything else. */
  ghost predicate SameFields(m: JsonObject, m': JsonObject) {
    forall i :: 0 <= i < |FIELDS| ==> StringField(m, FIELDS[i]) == StringField(m', FIELDS[i])
  }

  lemma SameFieldsParseAlike(m: JsonObject, m': JsonObject)
    requires SameFields(m, m')
    ensures ParseBundlePayload(m) == ParseBundlePayload(m')
  {
    hide StringField;
    assert StringField(m, FIELDS[0]) == StringField(m', FIELDS[0]) && StringField(m, FIELDS[1]) == StringField(m', FIELDS[1]);
    assert StringField(m, FIELDS[2]) == StringField(m', FIELDS[2]) && StringField(m, FIELDS[3]) == StringField(m', FIELDS[3]);
    assert StringField(m, FIELDS[4]) == StringField(m', FIELDS[4]) && StringField(m, FIELDS[5]) == StringField(m', FIELDS[5]);
    assert StringField(m, FIELDS[6]) == StringField(m', FIELDS[6]) && StringField(m, FIELDS[7]) == StringField(m', FIELDS[7]);
    assert StringField(m, FIELDS[8]) == StringField(m', FIELDS[8]) && StringField(m, FIELDS[9]) == StringField(m', FIELDS[9]);
  }

  /** The signature check comes out the same for both messages. */
  predicate SameVerdict(dev: Device, a: Answers, msg: Message, msg': Message) {
    a.keys.Keys? ==>
      (VerifySignedBundleWithKeyset(dev.crypto, msg.raw, msg.signature, msg.alg, msg.kid, a.keys.trusted) == None
       <==> VerifySignedBundleWithKeyset(dev.crypto, msg'.raw, msg'.signature, msg'.alg, msg'.kid, a.keys.trusted) == None)
  }

  /** Two bundles, both signed or both not, whose payloads agree on the fields the code reads
      give the same run: the same calls with the same arguments and the same verdict, whatever
      request id, nonce and expiry the payloads carry. */
  lemma OnlyTheseFieldsMatter(dev: Device, req: Request, a: Answers, msg: Message, msg': Message)
    requires SameFields(dev.parse(msg.raw), dev.parse(msg'.raw)) && SameVerdict(dev, a, msg, msg')
    ensures RunFrom(dev, req, AskUser, a.(bundle := Some(msg))) == RunFrom(dev, req, AskUser, a.(bundle := Some(msg')))
  {
    var b, b' := a.(bundle := Some(msg)), a.(bundle := Some(msg'));
    SameFieldsParseAlike(dev.parse(msg.raw), dev.parse(msg'.raw));
    hide VerifySignedBundleWithKeyset, ParseBundlePayload, StrictVerify, SameFields;
    assert RunFrom(dev, req, LookUpKeys(msg), b) == RunFrom(dev, req, LookUpKeys(msg'), b') by {
      SameAfterLookup(dev, req, a, msg, msg');
    }
    hide Unpack;
    assert RunFrom(dev, req, FetchBundle, b) == RunFrom(dev, req, FetchBundle, b');
  }

  lemma SameReport(dev: Device, req: Request, status: Status, reason: string, a: Answers, b: Answers)
    requires a.resultOk == b.resultOk
    ensures RunFrom(dev, req, PostResult(status, reason), a) == RunFrom(dev, req, PostResult(status, reason), b)
  {
    var last := Done(status == Status.Connected && a.resultOk);
    assert RunFrom(dev, req, last, a) == RunFrom(dev, req, last, b);
  }

  lemma SameAfterLookup(dev: Device, req: Request, a: Answers, msg: Message, msg': Message)
    requires ParseBundlePayload(dev.parse(msg.raw)) == ParseBundlePayload(dev.parse(msg'.raw)) && SameVerdict(dev, a, msg, msg')
    ensures RunFrom(dev, req, LookUpKeys(msg), a.(bundle := Some(msg)))
         == RunFrom(dev, req, LookUpKeys(msg'), a.(bundle := Some(msg')))
  {
    hide VerifySignedBundleWithKeyset, ParseBundlePayload, StrictVerify;
    var b, b' := a.(bundle := Some(msg)), a.(bundle := Some(msg'));
    forall status, reason
      ensures RunFrom(dev, req, PostResult(status, reason), b) == RunFrom(dev, req, PostResult(status, reason), b') {
      SameReport(dev, req, status, reason, b, b');
    }
    if a.keys.Keys? && Unpack(dev, msg, a.keys.trusted).Some? {
      var bundle := Unpack(dev, msg, a.keys.trusted).value;
      hide Unpack;
      SameAfterUnpacking(dev, req, a, msg, msg', bundle);
    }
  }

  lemma SameAfterUnpacking(dev: Device, req: Request, a: Answers, msg: Message, msg': Message, bundle: Bundle)
    requires a.keys.Keys?
    ensures RunFrom(dev, req, CheckQuote(msg, a.keys.trusted, bundle), a.(bundle := Some(msg)))
         == RunFrom(dev, req, CheckQuote(msg', a.keys.trusted, bundle), a.(bundle := Some(msg')))
  {
    hide StrictVerify;
    var b, b' := a.(bundle := Some(msg)), a.(bundle := Some(msg'));
    forall status, reason
      ensures RunFrom(dev, req, PostResult(status, reason), b) == RunFrom(dev, req, PostResult(status, reason), b') {
      SameReport(dev, req, status, reason, b, b');
    }
    if StrictVerify(dev.crypto, dev.policy, a.dcap, bundle) == None {
      TrustNeedsQuote(dev, a.dcap, bundle);
      assert RunFrom(dev, req, InstallKey(msg, a.keys.trusted, bundle, a.dcap.value), b)
          == RunFrom(dev, req, InstallKey(msg', a.keys.trusted, bundle, a.dcap.value), b');
    }
  }

  // ---------- Devices and store together ----------

  datatype Agent = Agent(dev: Device, req: Request, stage: Stage)

  /** What has happened, oldest first. */
  datatype Fact =
    | Confirmed(pid: nat, id: string)
    | ApprovalAccepted(pid: nat, id: string)
    | InstallCalled(pid: nat, id: string, dev: Device, key: string, msg: Message, trusted: KeyMap, dcap: DcapResult, ok: bool)

  datatype World = World(store: Store, agents: map<nat, Agent>, log: seq<Fact>)

  const NEW_WORLD := World(FRESH, map[], [])

  /** One request over the network: whether it reaches the store, the store's clock, whether
      its write succeeds, and whether the reply comes back. */
  datatype Exchange = Exchange(reached: bool, now: Time, writeOk: bool, delivered: bool)

  datatype Move =
    | Spawn(pid: nat, dev: Device, req: Request)
    | Advance(pid: nat, answers: Answers, io: Exchange)
    | Client(op: Op, now: Time, writeOk: bool)   // any other caller of the store
    | StoreCrash

  /** The store call a stage makes, if any. */
  function PendingOp(req: Request, stage: Stage): Option<Op> {
    match stage
    case PostDecision(approved) => Some(OnRequest(Decide(req.id, approved)))
    case FetchBundle => Some(OnRequest(Get(req.id)))
    case PostResult(status, reason) => Some(OnRequest(Report(req.id, status, reason)))
    case _ => None
  }

  function Exchanged(d: Store, op: Option<Op>, io: Exchange): (Store, bool) {
    if op.None? || !io.reached then (d, false)
    else
      var r := Serve(d, op.value, io.now, io.writeOk);
      (r.store, r.reply.Success())
  }

  /** A post succeeds when the store accepted it and the reply came back. What arrives as a
      bundle is left entirely open. */
  function AnswersWith(a: Answers, accepted: bool, io: Exchange): Answers {
    a.(decisionOk := accepted && io.delivered, resultOk := accepted && io.delivered)
  }

  function FactsOf(pid: nat, g: Agent, a: Answers, accepted: bool): seq<Fact> {
    match g.stage
    case AskUser => if a.user == Some(true) then [Confirmed(pid, g.req.id)] else []
    case PostDecision(approved) => if approved && accepted then [ApprovalAccepted(pid, g.req.id)] else []
    case InstallKey(msg, trusted, b, dcap) =>
      [InstallCalled(pid, g.req.id, g.dev, b.sshPublicKey, msg, trusted, dcap, Installs(g.req, b, a.installOk))]
    case _ => []
  }

  function AdvanceWorld(w: World, pid: nat, a: Answers, io: Exchange): World
    requires pid in w.agents
  {
    var g := w.agents[pid];
    var (store, accepted) := Exchanged(w.store, PendingOp(g.req, g.stage), io);
    var answers := AnswersWith(a, accepted, io);
    World(store, w.agents[pid := g.(stage := Next(g.dev, g.req, g.stage, answers))],
          w.log + FactsOf(pid, g, answers, accepted))
  }

  function Do(w: World, m: Move): World {
    match m
    case Spawn(pid, dev, req) => if pid in w.agents then w else w.(agents := w.agents[pid := Agent(dev, req, AskUser)])
    case Advance(pid, a, io) => if pid in w.agents then AdvanceWorld(w, pid, a, io) else w
    case Client(op, now, writeOk) => w.(store := Serve(w.store, op, now, writeOk).store)
    case StoreCrash => w.(store := Reopen(w.store))
  }

  function WorldAt(moves: seq<Move>, n: nat): World
    requires n <= |moves|
  {
    if n == 0 then NEW_WORLD else Do(WorldAt(moves, n - 1), moves[n - 1])
  }

  // ---------- Fail closed ----------

  /** The user approved this request, and after that the store accepted the approval. */
  ghost predicate ApprovedInOrder(log: seq<Fact>, pid: nat, id: string) {
    exists i, j :: 0 <= i < j < |log| && log[i] == Confirmed(pid, id) && log[j] == ApprovalAccepted(pid, id)
  }

  /** Every check passed for the key handed to the installer. */
  ghost predicate Justified(f: Fact)
    requires f.InstallCalled?
  {
    exists b: Bundle ::
      && b.sshPublicKey == f.key
      && VerifySignedBundleWithKeyset(f.dev.crypto, f.msg.raw, f.msg.signature, f.msg.alg, f.msg.kid, f.trusted) == None
      && ParseBundlePayload(f.dev.parse(f.msg.raw)) == Some(b)
      && StrictVerify(f.dev.crypto, f.dev.policy, Some(f.dcap), b) == None
  }

  ghost predicate LogSound(log: seq<Fact>) {
    forall k :: 0 <= k < |log| && log[k].InstallCalled? ==>
      Justified(log[k]) && ApprovedInOrder(log[..k], log[k].pid, log[k].id)
  }

  ghost predicate InstalledFor(log: seq<Fact>, id: string) {
    exists k :: 0 <= k < |log| && log[k].InstallCalled? && log[k].ok && log[k].id == id
  }

  /** What the log must show for an agent to be where it is. */
  ghost predicate AgentSound(log: seq<Fact>, pid: nat, g: Agent) {
    match g.stage
    case AskUser => true
    case PostDecision(approved) => approved ==> Confirmed(pid, g.req.id) in log
    case FetchBundle => ApprovedInOrder(log, pid, g.req.id)
    case LookUpKeys(_) => ApprovedInOrder(log, pid, g.req.id)
    case CheckQuote(msg, trusted, b) => ApprovedInOrder(log, pid, g.req.id) && Unpack(g.dev, msg, trusted) == Some(b)
    case InstallKey(msg, trusted, b, dcap) =>
      && ApprovedInOrder(log, pid, g.req.id) && Unpack(g.dev, msg, trusted) == Some(b)
      && StrictVerify(g.dev.crypto, g.dev.policy, Some(dcap), b) == None
    case PostResult(status, _) => status == Status.Connected ==> InstalledFor(log, g.req.id)
    case Done(_) => true
  }

  ghost predicate WorldSound(w: World) {
    LogSound(w.log) && forall pid :: pid in w.agents ==> AgentSound(w.log, pid, w.agents[pid])
  }

  lemma ApprovedInOrderGrows(log: seq<Fact>, more: seq<Fact>, pid: nat, id: string)
    requires ApprovedInOrder(log, pid, id)
    ensures ApprovedInOrder(log + more, pid, id)
  {
    var i, j :| 0 <= i < j < |log| && log[i] == Confirmed(pid, id) && log[j] == ApprovalAccepted(pid, id);
    assert (log + more)[i] == log[i] && (log + more)[j] == log[j];
  }

  lemma InstalledForGrows(log: seq<Fact>, more: seq<Fact>, id: string)
    requires InstalledFor(log, id)
    ensures InstalledFor(log + more, id)
  {
    var k :| 0 <= k < |log| && log[k].InstallCalled? && log[k].ok && log[k].id == id;
    assert (log + more)[k] == log[k];
  }

  lemma AgentSoundGrows(log: seq<Fact>, more: seq<Fact>, pid: nat, g: Agent)
    requires AgentSound(log, pid, g)
    ensures AgentSound(log + more, pid, g)
  {
    hide ApprovedInOrder, InstalledFor, Unpack, StrictVerify;
    if ApprovedInOrder(log, pid, g.req.id) { ApprovedInOrderGrows(log, more, pid, g.req.id); }
    if InstalledFor(log, g.req.id) { InstalledForGrows(log, more, g.req.id); }
  }

  lemma LogSoundGrows(log: seq<Fact>, f: Fact)
    requires LogSound(log)
    requires f.InstallCalled? ==> Justified(f) && ApprovedInOrder(log, f.pid, f.id)
    ensures LogSound(log + [f])
  {
    hide Justified, ApprovedInOrder;
    forall k | 0 <= k < |log + [f]| && (log + [f])[k].InstallCalled?
      ensures Justified((log + [f])[k]) && ApprovedInOrder((log + [f])[..k], (log + [f])[k].pid, (log + [f])[k].id) {
      assert (log + [f])[..k] == log[..k];
      if k == |log| { assert log[..k] == log; }
    }
  }

  /** An agent's own step keeps its own evidence. */
  lemma StepKeepsAgent(log: seq<Fact>, pid: nat, g: Agent, a: Answers, accepted: bool)
    requires AgentSound(log, pid, g) && (a.decisionOk ==> accepted)
    ensures AgentSound(log + FactsOf(pid, g, a, accepted), pid, g.(stage := Next(g.dev, g.req, g.stage, a)))
  {
    hide VerifySignedBundleWithKeyset, ParseBundlePayload, StrictVerify;
    var facts := FactsOf(pid, g, a, accepted);
    var after := log + facts;
    match g.stage
    case AskUser =>
      if a.user == Some(true) { assert after[|log|] == Confirmed(pid, g.req.id); }
    case PostDecision(approved) =>
      if a.decisionOk && approved {
        var i :| 0 <= i < |log| && log[i] == Confirmed(pid, g.req.id);
        assert after[i] == log[i] && after[|log|] == ApprovalAccepted(pid, g.req.id);
      }
    case FetchBundle => ApprovedInOrderGrows(log, facts, pid, g.req.id);
    case LookUpKeys(_) => ApprovedInOrderGrows(log, facts, pid, g.req.id);
    case CheckQuote(_, _, b) =>
      ApprovedInOrderGrows(log, facts, pid, g.req.id);
      if StrictVerify(g.dev.crypto, g.dev.policy, a.dcap, b) == None { TrustNeedsQuote(g.dev, a.dcap, b); }
    case InstallKey(_, _, b, _) =>
      if Installs(g.req, b, a.installOk) { assert after[|log|].InstallCalled? && after[|log|].ok; }
    case PostResult(_, _) =>
    case Done(_) =>
  }

  lemma StepKeepsLog(log: seq<Fact>, pid: nat, g: Agent, a: Answers, accepted: bool)
    requires LogSound(log) && AgentSound(log, pid, g)
    ensures LogSound(log + FactsOf(pid, g, a, accepted))
  {
    hide VerifySignedBundleWithKeyset, ParseBundlePayload, StrictVerify, LogSound;
    var facts := FactsOf(pid, g, a, accepted);
    if facts == [] {
      assert log + facts == log;
    } else {
      if g.stage.InstallKey? { assert Justified(facts[0]); }
      LogSoundGrows(log, facts[0]);
      assert facts == [facts[0]];
    }
  }

  lemma DoKeepsSound(w: World, m: Move)
    requires WorldSound(w)
    ensures WorldSound(Do(w, m))
  {
    hide Next, FactsOf, AgentSound, LogSound, Serve;
    if m.Advance? && m.pid in w.agents {
      var g := w.agents[m.pid];
      var (store, accepted) := Exchanged(w.store, PendingOp(g.req, g.stage), m.io);
      var answers := AnswersWith(m.answers, accepted, m.io);
      var facts := FactsOf(m.pid, g, answers, accepted);
      StepKeepsAgent(w.log, m.pid, g, answers, accepted);
      StepKeepsLog(w.log, m.pid, g, answers, accepted);
      forall pid | pid in w.agents ensures AgentSound(w.log + facts, pid, w.agents[pid]) {
        AgentSoundGrows(w.log, facts, pid, w.agents[pid]);
      }
    } else if m.Spawn? && m.pid !in w.agents {
      assert AgentSound(w.log, m.pid, Agent(m.dev, m.req, AskUser)) by { FreshAgentSound(w.log, m.pid, m.dev, m.req); }
    }
  }

  lemma FreshAgentSound(log: seq<Fact>, pid: nat, dev: Device, req: Request)
    ensures AgentSound(log, pid, Agent(dev, req, AskUser))
  {
  }

  lemma {:induction false} WorldAlwaysSound(moves: seq<Move>, n: nat)
    requires n <= |moves|
    ensures WorldSound(WorldAt(moves, n))
  {
    if n > 0 {
      hide Do, WorldSound;
      WorldAlwaysSound(moves, n - 1);
      DoKeepsSound(WorldAt(moves, n - 1), moves[n - 1]);
    }
  }

  /** The store shows this request as approved, in memory and on disk. */
  predicate ApprovedInStore(d: Store, id: string) {
    && id in d.mem.items && d.mem.items[id].status == Status.Approved
    && id in OnDisk(d).items && OnDisk(d).items[id].status == Status.Approved
  }

  lemma AcceptedIsStored(d: Store, req: Request, stage: Stage, io: Exchange)
    requires stage == PostDecision(true) && Exchanged(d, PendingOp(req, stage), io).1
    ensures ApprovedInStore(Exchanged(d, PendingOp(req, stage), io).0, req.id)
  {
  }

  lemma OneFact(pid: nat, g: Agent, a: Answers, accepted: bool)
    ensures var facts := FactsOf(pid, g, a, accepted);
            && |facts| <= 1
            && (|facts| == 1 && facts[0].ApprovalAccepted? ==>
                  g.stage == PostDecision(true) && accepted && facts[0] == ApprovalAccepted(pid, g.req.id))
  {
  }

  /** Behind every logged approval is the move in which the store took it: right after that
      move the request is approved, in memory and on disk. */
  lemma {:induction false} AcceptedMeansApproved(moves: seq<Move>, n: nat, j: nat) returns (m: nat)
    requires n <= |moves|
    requires var log := WorldAt(moves, n).log; j < |log| && log[j].ApprovalAccepted?
    ensures m < n && |WorldAt(moves, m).log| == j
    ensures ApprovedInStore(WorldAt(moves, m + 1).store, WorldAt(moves, n).log[j].id)
  {
    var w, move := WorldAt(moves, n - 1), moves[n - 1];
    assert WorldAt(moves, n) == Do(w, move) by { LastMove(moves, n); }
    hide WorldAt, Next, FactsOf, Exchanged;
    if j < |w.log| {
      m := AcceptedMeansApproved(moves, n - 1, j);
    } else {
      m := n - 1;
      var g := w.agents[move.pid];
      var (store, accepted) := Exchanged(w.store, PendingOp(g.req, g.stage), move.io);
      OneFact(move.pid, g, AnswersWith(move.answers, accepted, move.io), accepted);
      AcceptedIsStored(w.store, g.req, g.stage, move.io);
    }
  }

  /** Fail closed. In every run of any number of devices with the store, whatever the network,
      the prompts and the verifier do, and whoever else calls the store: when a key is handed
      to the installer, then earlier the user had approved that request and after that, in move
      `m`, the store had accepted the approval and held the request as approved, in memory and
      on disk; the exact payload bytes were signed under a trusted
      key; all three quote flags held; the policy passed; and the report data was the padded
      hash of that very key. */
  lemma FailClosed(moves: seq<Move>, n: nat, k: nat) returns (i: nat, j: nat, m: nat, b: Bundle)
    requires n <= |moves|
    requires var log := WorldAt(moves, n).log; k < |log| && log[k].InstallCalled?
    ensures var log := WorldAt(moves, n).log;
            var f := log[k];
            && i < j < k && log[i] == Confirmed(f.pid, f.id) && log[j] == ApprovalAccepted(f.pid, f.id)
            && m < n && |WorldAt(moves, m).log| == j && ApprovedInStore(WorldAt(moves, m + 1).store, f.id)
            && TrimSpace(f.msg.kid) in f.trusted
            && SignedUnder(f.dev.crypto, f.msg.raw, f.msg.signature, f.trusted[TrimSpace(f.msg.kid)])
            && ParseBundlePayload(f.dev.parse(f.msg.raw)) == Some(b) && b.sshPublicKey == f.key
            && StrictFlags(f.dcap) && CheckMeasurements(f.dev.policy, b) == None
            && f.dcap.reportData == ExpectedReportData(f.dev.crypto, f.key)
  {
    WorldAlwaysSound(moves, n);
    var log := WorldAt(moves, n).log;
    var f := log[k];
    hide WorldAt;
    assert Justified(f) && ApprovedInOrder(log[..k], f.pid, f.id);
    b :| b.sshPublicKey == f.key
      && VerifySignedBundleWithKeyset(f.dev.crypto, f.msg.raw, f.msg.signature, f.msg.alg, f.msg.kid, f.trusted) == None
      && ParseBundlePayload(f.dev.parse(f.msg.raw)) == Some(b)
      && StrictVerify(f.dev.crypto, f.dev.policy, Some(f.dcap), b) == None;
    AcceptedIffSigned(f.dev.crypto, f.msg.raw, f.msg.signature, f.msg.alg, f.msg.kid, f.trusted);
    i, j :| 0 <= i < j < |log[..k]| && log[..k][i] == Confirmed(f.pid, f.id)
      && log[..k][j] == ApprovalAccepted(f.pid, f.id);
    m := AcceptedMeansApproved(moves, n, j);
  }

  // ---------- Connected means installed ----------

  predicate PostsConnected(op: Op, id: string) {
    op.OnRequest? && op.request.Report? && op.request.id == id && op.request.result == Status.Connected
  }

  /** If the store shows request `id` as connected, a key was installed for it. */
  ghost predicate ConnectedInstalled(s: State, log: seq<Fact>, id: string) {
    id in s.items && s.items[id].status == Status.Connected ==> InstalledFor(log, id)
  }

  ghost predicate ConnectedMeansInstalled(w: World, id: string) {
    ConnectedInstalled(w.store.mem, w.log, id) && ConnectedInstalled(OnDisk(w.store), w.log, id)
  }

  /** If move `i` is another caller's report of `id` as connected, and the store takes it, then a
      key was installed for `id` before. A device's own report that arrives after the device has
      given up waiting is such a move. */
  ghost predicate ReportFollowsInstall(moves: seq<Move>, i: nat, id: string)
    requires i < |moves|
  {
    moves[i].Client? && PostsConnected(moves[i].op, id)
    && Apply(WorldAt(moves, i).store.mem, moves[i].op, moves[i].now).reply.Success()
    ==> InstalledFor(WorldAt(moves, i).log, id)
  }

  lemma ServeKeepsConnected(s: State, op: Op, now: Time, log: seq<Fact>, id: string)
    requires ConnectedInstalled(s, log, id)
    requires PostsConnected(op, id) && Apply(s, op, now).reply.Success() ==> InstalledFor(log, id)
    ensures ConnectedInstalled(Apply(s, op, now).state, log, id)
  {
    hide InstalledFor;
    if id in Apply(s, op, now).state.items && Apply(s, op, now).state.items[id].status == Status.Connected {
      if op.OnRequest? { ConnectionStep(s.items, op.request, now, id); }
    }
  }

  lemma ConnectedInstalledGrows(s: State, log: seq<Fact>, more: seq<Fact>, id: string)
    requires ConnectedInstalled(s, log, id)
    ensures ConnectedInstalled(s, log + more, id)
  {
    if InstalledFor(log, id) { InstalledForGrows(log, more, id); }
  }

  /** The devices' own moves, and crashes, keep it; another caller's move keeps it if its report
      follows the install. */
  lemma MoveKeepsConnected(moves: seq<Move>, n: nat, id: string)
    requires n < |moves| && ConnectedMeansInstalled(WorldAt(moves, n), id) && ReportFollowsInstall(moves, n, id)
    ensures ConnectedMeansInstalled(WorldAt(moves, n + 1), id)
  {
    WorldAlwaysSound(moves, n);
    var w, m := WorldAt(moves, n), moves[n];
    assert WorldAt(moves, n + 1) == Do(w, m) by { LastMove(moves, n + 1); }
    hide WorldAt, Next, InstalledFor, LogSound, Apply, ConnectedInstalled;
    if m.Client? {
      ServeKeepsConnected(w.store.mem, m.op, m.now, w.log, id);
    } else if m.Advance? && m.pid in w.agents {
      var g := w.agents[m.pid];
      var op := PendingOp(g.req, g.stage);
      assert AgentSound(w.log, m.pid, g);
      if op.Some? { ServeKeepsConnected(w.store.mem, op.value, m.io.now, w.log, id); }
      var (store, accepted) := Exchanged(w.store, op, m.io);
      var facts := FactsOf(m.pid, g, AnswersWith(m.answers, accepted, m.io), accepted);
      ConnectedInstalledGrows(store.mem, w.log, facts, id);
      ConnectedInstalledGrows(OnDisk(store), w.log, facts, id);
    }
  }

  /** Other callers may post what they like, late reports of the devices included, as long as
      none of them is first to report `id` as connected: then at every moment, in memory and on
      disk and after any crashes, `id` is connected only if a key was successfully installed
      for it. */
  lemma {:induction false} ConnectedImpliesInstalled(moves: seq<Move>, n: nat, id: string)
    requires n <= |moves| && ReportsFollowInstalls(moves, n, id)
    ensures ConnectedMeansInstalled(WorldAt(moves, n), id)
  {
    hide ReportFollowsInstall, WorldAt;
    if n > 0 {
      ConnectedImpliesInstalled(moves, n - 1, id);
      MoveKeepsConnected(moves, n - 1, id);
    } else {
      assert WorldAt(moves, 0) == NEW_WORLD by { FirstWorld(moves); }
    }
  }

  lemma FirstWorld(moves: seq<Move>)
    ensures WorldAt(moves, 0) == NEW_WORLD
  {
  }

  ghost predicate AlwaysInstalledFirst(moves: seq<Move>, n: nat, id: string)
    requires n <= |moves|
  {
    forall i :: 0 <= i <= n ==> ConnectedMeansInstalled(WorldAt(moves, i), id)
  }

  ghost predicate ReportsFollowInstalls(moves: seq<Move>, n: nat, id: string)
    requires n <= |moves|
  {
    forall i :: 0 <= i < n ==> ReportFollowsInstall(moves, i, id)
  }

  /** The condition is exact: "connected means installed" holds throughout a run, for request
      `id`, if and only if no other caller's report of `id` as connected is taken before a key
      was installed for it. */
  lemma {:induction false} ConnectedMeansInstalledIff(moves: seq<Move>, n: nat, id: string)
    requires n <= |moves|
    ensures AlwaysInstalledFirst(moves, n, id) <==> ReportsFollowInstalls(moves, n, id)
  {
    hide ReportFollowsInstall, WorldAt, ConnectedMeansInstalled;
    if n == 0 {
      ConnectedImpliesInstalled(moves, 0, id);
    } else {
      ConnectedMeansInstalledIff(moves, n - 1, id);
      assert AlwaysInstalledFirst(moves, n, id)
        == (AlwaysInstalledFirst(moves, n - 1, id) && ConnectedMeansInstalled(WorldAt(moves, n), id));
      assert ReportsFollowInstalls(moves, n, id)
        == (ReportsFollowInstalls(moves, n - 1, id) && ReportFollowsInstall(moves, n - 1, id));
      if ReportsFollowInstalls(moves, n, id) { ConnectedImpliesInstalled(moves, n, id); }
      if ConnectedMeansInstalled(WorldAt(moves, n), id) { TakenReportConnects(moves, n - 1, id); }
    }
  }

  lemma TakenReportConnects(moves: seq<Move>, n: nat, id: string)
    requires n < |moves| && ConnectedMeansInstalled(WorldAt(moves, n + 1), id)
    ensures ReportFollowsInstall(moves, n, id)
  {
    var w, m := WorldAt(moves, n), moves[n];
    assert WorldAt(moves, n + 1) == Do(w, m) by { LastMove(moves, n + 1); }
    hide WorldAt, InstalledFor;
    if m.Client? && PostsConnected(m.op, id) && Apply(w.store.mem, m.op, m.now).reply.Success() {
      var after := Apply(w.store.mem, m.op, m.now).state;
      assert id in after.items && after.items[id].status == Status.Connected;
      assert Do(w, m).store.mem == after && Do(w, m).log == w.log;
    }
  }

  lemma LastMove(moves: seq<Move>, n: nat)
    requires 0 < n <= |moves|
    ensures WorldAt(moves, n) == Do(WorldAt(moves, n - 1), moves[n - 1])
  {
  }
}
