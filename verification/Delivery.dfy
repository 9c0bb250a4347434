/** The bundle handler and the connection flow together: which request a bundle is for. The
    device does not check it; it holds when the bundle delivered is the one the handler signed
    for the id that was asked. */
module Delivery {
  import opened Wrappers
  import opened Text
  import opened Crypto
  import opened Verify
  import opened Requests
  import opened StoreInvariants
  import opened Durable
  import opened Signing
  import opened Bundles
  import Flow

  // ---------- A run that installs from another request's expired bundle ----------

  const FOREIGN: Flow.JsonObject := map[
    "request_id" := Flow.Str("another request"), "nonce" := Flow.Str("another nonce"),
    "expires_at" := Flow.Str("1970-01-01T00:00:00Z"),
    "ssh_public_key" := Flow.Str("key"), "quote_hex" := Flow.Str("quote"),
    "rtmr0" := Flow.Str("0"), "rtmr1" := Flow.Str("1"), "rtmr2" := Flow.Str("2")]

  /** Everyone agrees to everything; the bundle is properly signed by a trusted signer. */
  function ForeignAnswers(c: Primitives, x: Signer, raw: Bytes): Flow.Answers {
    Flow.Answers(
      Some(true), true,
      Some(Flow.Message(raw, c.encode64(c.sign(x.seed, raw)), "ed25519", x.kid)),
      Flow.Keys(map[x.kid := PublicKeyB64(c, x)]),
      Some(DcapResult(true, true, true, ExpectedReportData(c, "key"))), true, true)
  }

  /** Whatever the cryptography, the signer, the request and the device's parser: if some bytes
      read as that payload and the policy is open, the run installs the key and reports the
      request as connected, from a payload that names another request and expired in 1970. */
  lemma ForeignBundleInstalls(dev: Flow.Device, x: Signer, raw: Bytes, req: Flow.Request)
    requires SignaturesCheck(dev.crypto) && EncodingInverts(dev.crypto) && WellMade(dev.crypto, x, x.kid)
    requires raw != [] && dev.parse(raw) == FOREIGN && dev.policy == StaticPolicy({}, {}) && req.localUser != ""
    ensures var run := Flow.RunFrom(dev, req, Flow.AskUser, ForeignAnswers(dev.crypto, x, raw));
            && run.ok
            && Flow.InstallTried(req.localUser, "key") in run.effects
            && Flow.Reported(req.id, Status.Connected, "") in run.effects
    ensures Flow.StringField(dev.parse(raw), "request_id") == "another request"
    ensures Flow.StringField(dev.parse(raw), "expires_at") == "1970-01-01T00:00:00Z"
  {
    var a, b := ForeignAnswers(dev.crypto, x, raw), FOREIGN_BUNDLE;
    ForeignNames();
    ForeignParses();
    ForeignTrusted(dev.crypto);
    assert b.sshPublicKey == "key" && !Blank(b.sshPublicKey) by { assert Trimmed("key"); }
    assert a.bundle.value.raw == raw;
    hide FOREIGN, FOREIGN_BUNDLE, Flow.RunFrom, Flow.Unpack, StrictVerify, Flow.ParseBundlePayload, ExpectedReportData, TrimSpace;
    SignedUnpacks(dev, x, a.bundle.value, b);
    var install := Flow.RunFrom(dev, req, Flow.InstallKey(a.bundle.value, a.keys.trusted, b, a.dcap.value), a);
    InstallSucceeds(dev, req, a, b);
    LeadsTo(dev, req, a, b, install);
  }

  const FOREIGN_BUNDLE := Bundle("", "key", "quote", "", "0", "1", "2", "", "", "")

  lemma ForeignParses()
    ensures Flow.ParseBundlePayload(FOREIGN) == Some(FOREIGN_BUNDLE)
  {
  }

  lemma ForeignNames()
    ensures Flow.StringField(FOREIGN, "request_id") == "another request"
    ensures Flow.StringField(FOREIGN, "expires_at") == "1970-01-01T00:00:00Z"
  {
  }

  /** A properly signed message under a map that trusts its signer unpacks to what it says. */
  lemma SignedUnpacks(dev: Flow.Device, x: Signer, msg: Flow.Message, b: Bundle)
    requires SignaturesCheck(dev.crypto) && EncodingInverts(dev.crypto) && WellMade(dev.crypto, x, x.kid) && msg.raw != []
    requires msg == Flow.Message(msg.raw, dev.crypto.encode64(dev.crypto.sign(x.seed, msg.raw)), "ed25519", x.kid)
    requires Flow.ParseBundlePayload(dev.parse(msg.raw)) == Some(b)
    ensures Flow.Unpack(dev, msg, map[x.kid := PublicKeyB64(dev.crypto, x)]) == Some(b)
  {
    hide VerifySignedBundleWithKeyset, Flow.ParseBundlePayload;
    SignedByPasses(dev.crypto, x, msg.raw, map[x.kid := PublicKeyB64(dev.crypto, x)]);
  }

  lemma ForeignTrusted(c: Primitives)
    ensures StrictVerify(c, StaticPolicy({}, {}), Some(DcapResult(true, true, true, ExpectedReportData(c, "key"))), FOREIGN_BUNDLE)
         == None
  {
    hide ExpectedReportData;
  }

  lemma InstallSucceeds(dev: Flow.Device, req: Flow.Request, a: Flow.Answers, b: Bundle)
    requires a.bundle.Some? && a.keys.Keys? && a.dcap.Some? && a.resultOk && Flow.Installs(req, b, a.installOk)
    ensures var run := Flow.RunFrom(dev, req, Flow.InstallKey(a.bundle.value, a.keys.trusted, b, a.dcap.value), a);
            && run.ok
            && Flow.InstallTried(req.localUser, b.sshPublicKey) in run.effects
            && Flow.Reported(req.id, Status.Connected, "") in run.effects
  {
    hide Flow.Installs;
    var report := Flow.RunFrom(dev, req, Flow.PostResult(Status.Connected, ""), a);
    assert Flow.RunFrom(dev, req, Flow.Done(true), a) == Flow.Ending([], true);
    assert report == Flow.Ending([Flow.Reported(req.id, Status.Connected, "")], true);
    var run := Flow.RunFrom(dev, req, Flow.InstallKey(a.bundle.value, a.keys.trusted, b, a.dcap.value), a);
    assert run == Flow.Ending([Flow.InstallTried(req.localUser, b.sshPublicKey)] + report.effects, true);
    assert run.effects[0] == Flow.InstallTried(req.localUser, b.sshPublicKey) && run.effects[1] == report.effects[0];
  }

  /** With every earlier answer favourable, a run ends as it does from the install on. */
  lemma LeadsTo(dev: Flow.Device, req: Flow.Request, a: Flow.Answers, b: Bundle, install: Flow.Ending)
    requires a.user == Some(true) && a.decisionOk && a.bundle.Some? && a.keys.Keys? && a.dcap.Some?
    requires Flow.Unpack(dev, a.bundle.value, a.keys.trusted) == Some(b)
    requires StrictVerify(dev.crypto, dev.policy, a.dcap, b) == None
    requires install == Flow.RunFrom(dev, req, Flow.InstallKey(a.bundle.value, a.keys.trusted, b, a.dcap.value), a)
    ensures var run := Flow.RunFrom(dev, req, Flow.AskUser, a);
            run.ok == install.ok && forall e :: e in install.effects ==> e in run.effects
  {
    hide Flow.Unpack, StrictVerify, Flow.Installs;
    var quote := Flow.RunFrom(dev, req, Flow.CheckQuote(a.bundle.value, a.keys.trusted, b), a);
    var lookup := Flow.RunFrom(dev, req, Flow.LookUpKeys(a.bundle.value), a);
    var fetch := Flow.RunFrom(dev, req, Flow.FetchBundle, a);
    var post := Flow.RunFrom(dev, req, Flow.PostDecision(true), a);
    assert quote.ok == install.ok && forall e :: e in install.effects ==> e in quote.effects;
    assert lookup.ok == quote.ok && forall e :: e in quote.effects ==> e in lookup.effects;
    assert fetch.ok == lookup.ok && forall e :: e in lookup.effects ==> e in fetch.effects;
    assert post.ok == fetch.ok && forall e :: e in fetch.effects ==> e in post.effects;
  }

  // ---------- A server that hands out what it signed for the id asked ----------

  /** The handler's configuration; `later` is its own clock reading at each move. */
  datatype Server = Server(
    templates: map<string, Template>, hashHex: string -> string, marshal: Payload -> Bytes, later: nat -> Time)

  function Answered(srv: Server, moves: seq<Flow.Move>, i: nat, id: string): Response
    requires i < |moves| && moves[i].Advance?
  {
    AttestationBundle(Flow.WorldAt(moves, i).store.mem, id, moves[i].io.now, srv.templates, srv.later(i), srv.hashHex).1
  }

  /** At move `i` the handler signed this message's bytes for request `id`. */
  predicate Handed(srv: Server, moves: seq<Flow.Move>, i: nat, id: string, msg: Flow.Message)
    requires i < |moves|
  {
    && moves[i].Advance?
    && Answered(srv, moves, i, id).Signable? && msg.raw == srv.marshal(Answered(srv, moves, i, id).payload)
  }

  /** Whenever a bundle arrives at this device, it is what the handler signed at that moment for
      the id the device asked for. Other devices may get anything. */
  ghost predicate HonestDelivery(srv: Server, moves: seq<Flow.Move>, pid: nat) {
    forall i :: 0 <= i < |moves| && moves[i].Advance? && moves[i].pid == pid && pid in Flow.WorldAt(moves, i).agents ==>
      var g := Flow.WorldAt(moves, i).agents[pid];
      g.stage.FetchBundle? && moves[i].answers.bundle.Some? ==>
        Handed(srv, moves, i, g.req.id, moves[i].answers.bundle.value)
  }

  ghost predicate Delivered(srv: Server, moves: seq<Flow.Move>, n: nat, id: string, msg: Flow.Message)
    requires n <= |moves|
  {
    exists i :: 0 <= i < n && Handed(srv, moves, i, id, msg)
  }

  /** The message a stage works on. */
  function Held(stage: Flow.Stage): Option<Flow.Message> {
    match stage
    case LookUpKeys(msg) => Some(msg)
    case CheckQuote(msg, _, _) => Some(msg)
    case InstallKey(msg, _, _, _) => Some(msg)
    case _ => None
  }

  /** The message this device works on, and those of its installs, were delivered for it. */
  ghost predicate AllDelivered(srv: Server, moves: seq<Flow.Move>, n: nat, w: Flow.World, pid: nat)
    requires n <= |moves|
  {
    && (pid in w.agents && Held(w.agents[pid].stage).Some? ==>
          Delivered(srv, moves, n, w.agents[pid].req.id, Held(w.agents[pid].stage).value))
    && (forall k :: 0 <= k < |w.log| && w.log[k].InstallCalled? && w.log[k].pid == pid ==>
          Delivered(srv, moves, n, w.log[k].id, w.log[k].msg))
  }

  lemma DeliveredLater(srv: Server, moves: seq<Flow.Move>, n: nat, w: Flow.World, pid: nat)
    requires n < |moves| && AllDelivered(srv, moves, n, w, pid)
    ensures AllDelivered(srv, moves, n + 1, w, pid)
  {
    hide Handed, Held;
  }

  /** A stage's message is the one before it, or the bundle that has just arrived. */
  lemma HeldFrom(dev: Flow.Device, req: Flow.Request, stage: Flow.Stage, a: Flow.Answers)
    requires Held(Flow.Next(dev, req, stage, a)).Some?
    ensures Held(Flow.Next(dev, req, stage, a)) == if stage.FetchBundle? then a.bundle else Held(stage)
  {
    hide Flow.Unpack, StrictVerify, Flow.Installs;
  }

  lemma FactsHold(pid: nat, g: Flow.Agent, a: Flow.Answers, accepted: bool)
    ensures forall f :: f in Flow.FactsOf(pid, g, a, accepted) && f.InstallCalled? ==>
              f.pid == pid && f.id == g.req.id && Held(g.stage) == Some(f.msg)
  {
  }

  lemma MoveKeepsDelivered(srv: Server, moves: seq<Flow.Move>, n: nat, pid: nat)
    requires n < |moves| && HonestDelivery(srv, moves, pid) && AllDelivered(srv, moves, n, Flow.WorldAt(moves, n), pid)
    ensures AllDelivered(srv, moves, n + 1, Flow.WorldAt(moves, n + 1), pid)
  {
    var w, m := Flow.WorldAt(moves, n), moves[n];
    DeliveredLater(srv, moves, n, w, pid);
    assert Flow.WorldAt(moves, n + 1) == Flow.Do(w, m) by { Flow.LastMove(moves, n + 1); }
    if m.Advance? && m.pid in w.agents {
      var g := w.agents[m.pid];
      var (store, accepted) := Flow.Exchanged(w.store, Flow.PendingOp(g.req, g.stage), m.io);
      var a := Flow.AnswersWith(m.answers, accepted, m.io);
      assert m.pid == pid && g.stage.FetchBundle? && a.bundle.Some? ==> Delivered(srv, moves, n + 1, g.req.id, a.bundle.value);
      var next := Flow.Next(g.dev, g.req, g.stage, a);
      if Held(next).Some? { HeldFrom(g.dev, g.req, g.stage, a); }
      FactsHold(m.pid, g, a, accepted);
      var after := Flow.Do(w, m);
      hide Flow.WorldAt, Flow.Next, Flow.FactsOf, Held, Delivered, Flow.Exchanged;
      assert after.agents == w.agents[m.pid := g.(stage := next)];
      assert after.log == w.log + Flow.FactsOf(m.pid, g, a, accepted);
      forall k | 0 <= k < |after.log| && after.log[k].InstallCalled? && after.log[k].pid == pid
        ensures Delivered(srv, moves, n + 1, after.log[k].id, after.log[k].msg) {
        if k >= |w.log| { assert after.log[k] in Flow.FactsOf(m.pid, g, a, accepted); }
      }
    }
  }

  lemma {:induction false} AlwaysDelivered(srv: Server, moves: seq<Flow.Move>, n: nat, pid: nat)
    requires n <= |moves| && HonestDelivery(srv, moves, pid)
    ensures AllDelivered(srv, moves, n, Flow.WorldAt(moves, n), pid)
  {
    hide HonestDelivery, AllDelivered;
    if n > 0 {
      AlwaysDelivered(srv, moves, n - 1, pid);
      MoveKeepsDelivered(srv, moves, n - 1, pid);
    } else {
      NothingYet(srv, moves, pid);
    }
  }

  lemma NothingYet(srv: Server, moves: seq<Flow.Move>, pid: nat)
    ensures AllDelivered(srv, moves, 0, Flow.WorldAt(moves, 0), pid)
  {
    hide Delivered, Held;
    assert Flow.WorldAt(moves, 0) == Flow.NEW_WORLD;
  }

  lemma {:induction false} StoreIntegrity(moves: seq<Flow.Move>, n: nat)
    requires n <= |moves|
    ensures Integrity(Flow.WorldAt(moves, n).store.mem) && Integrity(OnDisk(Flow.WorldAt(moves, n).store))
  {
    hide Integrity, Flow.Do;
    if n == 0 {
      assert Integrity(EMPTY) by { EmptyIsGood(); }
      assert Flow.WorldAt(moves, 0) == Flow.NEW_WORLD;
    } else {
      StoreIntegrity(moves, n - 1);
      var w, m := Flow.WorldAt(moves, n - 1), moves[n - 1];
      assert Flow.WorldAt(moves, n) == Flow.Do(w, m) by { Flow.LastMove(moves, n); }
      MoveKeepsIntegrity(w, m);
    }
  }

  lemma EmptyIsGood()
    ensures Integrity(EMPTY)
  {
  }

  lemma MoveKeepsIntegrity(w: Flow.World, m: Flow.Move)
    requires Integrity(w.store.mem) && Integrity(OnDisk(w.store))
    ensures Integrity(Flow.Do(w, m).store.mem) && Integrity(OnDisk(Flow.Do(w, m).store))
  {
    hide Flow.WorldAt, Flow.Next, Flow.FactsOf, Integrity, Apply;
    if m.Client? {
      IntegrityKept(w.store.mem, m.op, m.now);
    } else if m.Advance? && m.pid in w.agents {
      var op := Flow.PendingOp(w.agents[m.pid].req, w.agents[m.pid].stage);
      if op.Some? { IntegrityKept(w.store.mem, op.value, m.io.now); }
    }
  }

  /** How a device reads what the handler marshals. */
  ghost predicate ReadsBack(dev: Flow.Device, srv: Server) {
    forall p: Payload ::
      var m := dev.parse(srv.marshal(p));
      && Flow.StringField(m, "request_id") == p.requestId
      && Flow.StringField(m, "nonce") == p.nonce
      && Flow.StringField(m, "ssh_public_key") == p.template.sshPublicKey
  }

  /** With honest delivery to one device, in every run of devices and store: whenever that device
      hands a key to the installer, its bundle was signed earlier for this very request, which was then approved;
      the payload carries the request's id and nonce, was issued no later than the request's
      expiry, and the key is that of the template for the request's connector. */
  lemma InstallsOwnBundle(srv: Server, moves: seq<Flow.Move>, n: nat, k: nat) returns (i: nat)
    requires n <= |moves|
    requires var log := Flow.WorldAt(moves, n).log;
             k < |log| && log[k].InstallCalled? && ReadsBack(log[k].dev, srv) && HonestDelivery(srv, moves, log[k].pid)
    ensures i < n && moves[i].Advance?
    ensures var f := Flow.WorldAt(moves, n).log[k];
            var s := Flow.WorldAt(moves, i).store.mem.items;
            && f.id in s && s[f.id].status == Approved
            && var p := Answered(srv, moves, i, f.id);
               && p.Signable? && f.msg.raw == srv.marshal(p.payload)
               && Flow.StringField(f.dev.parse(f.msg.raw), "request_id") == f.id
               && Flow.StringField(f.dev.parse(f.msg.raw), "nonce") == s[f.id].nonce
               && p.payload.issuedAt <= s[f.id].expiresAt == p.payload.expiresAt && moves[i].io.now <= s[f.id].expiresAt
               && s[f.id].connectorId in srv.templates
               && f.key == srv.templates[s[f.id].connectorId].sshPublicKey
  {
    AlwaysDelivered(srv, moves, n, Flow.WorldAt(moves, n).log[k].pid);
    var j, l, m, b := Flow.FailClosed(moves, n, k);
    var f := Flow.WorldAt(moves, n).log[k];
    assert Delivered(srv, moves, n, f.id, f.msg);
    i :| 0 <= i < n && Handed(srv, moves, i, f.id, f.msg);
    StoreIntegrity(moves, i);
    hide Flow.WorldAt;
    SignedForIt(Flow.WorldAt(moves, i).store.mem, f.id, moves[i].io.now, srv.templates, srv.later(i), srv.hashHex);
    assert b.sshPublicKey == Flow.StringField(f.dev.parse(f.msg.raw), "ssh_public_key") by {
      KeyField(f.dev.parse(f.msg.raw), b);
    }
  }

  lemma KeyField(m: Flow.JsonObject, b: Bundle)
    requires Flow.ParseBundlePayload(m) == Some(b)
    ensures b.sshPublicKey == Flow.StringField(m, "ssh_public_key")
  {
  }
}
