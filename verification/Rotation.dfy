/** Key rotation as a device lives through it: the order of Process's calls gives the order of
    times that rotation safety needs. */
module Rotation {
  import opened Wrappers
  import opened Text
  import opened Crypto
  import opened Verify
  import opened Signing
  import Trust
  import KeysetRuns
  import opened Requests
  import opened Flow

  type Time = Trust.Time

  /** One call of a run: what it does, and the time between which it begins and ends. */
  datatype Timed = Timed(effect: Effect, begin: Time, end: Time)

  /** The effects of this run with their times, one call after the other. */
  ghost predicate Schedule(calls: seq<Timed>, effects: seq<Effect>) {
    && |calls| == |effects|
    && (forall i :: 0 <= i < |calls| ==> calls[i].effect == effects[i] && calls[i].begin <= calls[i].end)
    && (forall i, j :: 0 <= i < j < |calls| ==> calls[i].end <= calls[j].begin)
  }

  function Position(e: Effect): nat {
    match e
    case Asked => 0
    case Decided(_, _) => 1
    case BundleFetched(_) => 2
    case KeysLookedUp => 3
    case QuoteChecked(_) => 4
    case InstallTried(_, _) => 5
    case Reported(_, _, _) => 6
  }

  /** Position of the call a stage makes. */
  function StagePosition(stage: Stage): nat {
    7 - Rank(stage)
  }

  /** The calls in their fixed order from position p on, broken off anywhere, and then at
      most one report, which comes last. */
  predicate From(effects: seq<Effect>, p: nat) {
    && (forall i :: 0 <= i < |effects| && !effects[i].Reported? ==> Position(effects[i]) == p + i)
    && (forall i :: 0 <= i < |effects| && effects[i].Reported? ==> i == |effects| - 1)
  }

  lemma OneMore(e: Effect, rest: seq<Effect>, p: nat, q: nat)
    requires From(rest, q) && (!e.Reported? ==> Position(e) == p)
    requires rest == [] || (!e.Reported? && (q == p + 1 || (|rest| == 1 && rest[0].Reported?)))
    ensures From([e] + rest, p)
  {
    var all := [e] + rest;
    forall i | 0 < i < |all| ensures all[i] == rest[i - 1] {}
  }

  lemma ReportLast(dev: Device, req: Request, stage: Stage, a: Answers)
    requires stage.PostResult?
    ensures RunFrom(dev, req, stage, a).effects == [Reported(req.id, stage.status, stage.reason)]
  {
    assert RunFrom(dev, req, Next(dev, req, stage, a), a).effects == [];
  }

  /** A step that is not the last goes to the next position, or straight to the report. */
  lemma NextPosition(dev: Device, req: Request, stage: Stage, a: Answers)
    requires !stage.Done?
    ensures var next := Next(dev, req, stage, a);
            && Rank(next) < Rank(stage)
            && RunFrom(dev, req, stage, a).effects == EffectOf(req, stage) + RunFrom(dev, req, next, a).effects
            && (next.Done? ==> RunFrom(dev, req, next, a).effects == [])
    ensures var next := Next(dev, req, stage, a);
            next.Done? || (!stage.PostResult? && (next.PostResult? || StagePosition(next) == StagePosition(stage) + 1))
    ensures |EffectOf(req, stage)| == 1
    ensures var e := EffectOf(req, stage)[0];
            if stage.PostResult? then e.Reported? else !e.Reported? && Position(e) == StagePosition(stage)
  {
    hide Unpack, StrictVerify;
  }

  lemma {:induction false} StepsInOrder(dev: Device, req: Request, stage: Stage, a: Answers)
    ensures From(RunFrom(dev, req, stage, a).effects, StagePosition(stage))
    decreases Rank(stage)
  {
    if !stage.Done? {
      hide Next, EffectOf, From, StagePosition, Rank, RunFrom;
      var next := Next(dev, req, stage, a);
      NextPosition(dev, req, stage, a);
      StepsInOrder(dev, req, next, a);
      if next.PostResult? { ReportLast(dev, req, next, a); }
      OneMore(EffectOf(req, stage)[0], RunFrom(dev, req, next, a).effects, StagePosition(stage), StagePosition(next));
      assert EffectOf(req, stage) == [EffectOf(req, stage)[0]];
    }
  }

  lemma ProcessInOrder(dev: Device, req: Request, a: Answers)
    ensures From(RunFrom(dev, req, AskUser, a).effects, 0)
  {
    StepsInOrder(dev, req, AskUser, a);
  }

  /** A run that looked up the keys asks for the quote next, if the bundle it holds checks and
      parses under those keys. */
  lemma LookupThenQuote(dev: Device, req: Request, a: Answers)
    requires var e := RunFrom(dev, req, AskUser, a).effects; |e| > 3 && e[3] == KeysLookedUp
    ensures a.bundle.Some?
    ensures a.keys.Keys? && Unpack(dev, a.bundle.value, a.keys.trusted).Some? ==>
              var e := RunFrom(dev, req, AskUser, a).effects;
              |e| > 4 && e[4] == QuoteChecked(Unpack(dev, a.bundle.value, a.keys.trusted).value.quoteHex)
  {
    hide Unpack, StrictVerify;
    var decision := RunFrom(dev, req, Next(dev, req, AskUser, a), a);
    assert RunFrom(dev, req, AskUser, a).effects[1..] == decision.effects;
    assert decision.effects[2] == KeysLookedUp;
    var fetch := RunFrom(dev, req, FetchBundle, a);
    assert decision.effects[1..] == fetch.effects;
    assert fetch.effects[1] == KeysLookedUp;
    var lookup := RunFrom(dev, req, LookUpKeys(a.bundle.value), a);
    assert fetch.effects[1..] == lookup.effects;
    if a.keys.Keys? && Unpack(dev, a.bundle.value, a.keys.trusted).Some? {
      var bundle := Unpack(dev, a.bundle.value, a.keys.trusted).value;
      var quote := RunFrom(dev, req, CheckQuote(a.bundle.value, a.keys.trusted, bundle), a);
      assert lookup.effects[1..] == quote.effects;
      assert RunFrom(dev, req, AskUser, a).effects[4] == quote.effects[0];
    }
  }

  /** Rotation safety, in a run of Process. A key is published throughout [from, until]; the
      server signs the bundle with it at `signedAt`, at least one cache lifetime, less one
      nanosecond, after `from` and before the fetch of the bundle ends; the lookup reads the clock during its own call
      and finishes by `until`. Then the run gets past the signature check: what follows the
      lookup is the quote, and never a report. */
  lemma RotatedKeyReachesQuote(
      dev: Device, req: Request, a: Answers, calls: seq<Timed>, k: nat,
      w: KeysetRuns.World, actions: seq<KeysetRuns.Action>, n: nat, id: nat,
      x: Signer, raw: Bytes, from: Time, until: Time, signedAt: Time)
    requires SignaturesCheck(dev.crypto) && EncodingInverts(dev.crypto) && WellMade(dev.crypto, x, x.kid) && w.ttl > 0
    requires Schedule(calls, RunFrom(dev, req, AskUser, a).effects) && k < |calls| && calls[k].effect == KeysLookedUp
    requires KeysetRuns.PublishedThroughout(w, x.kid, PublicKeyB64(dev.crypto, x), from, until)
    requires a.bundle == Some(Message(raw, dev.crypto.encode64(dev.crypto.sign(x.seed, raw)), "ed25519", x.kid))
    requires raw != [] && ParseBundlePayload(dev.parse(raw)).Some?
    requires from + w.ttl - 1 <= signedAt
    requires forall i :: 0 <= i < |calls| && calls[i].effect.BundleFetched? ==> signedAt <= calls[i].end
    requires n <= |actions| && id in KeysetRuns.Run(w, actions, n).lookups
    requires var c := KeysetRuns.Run(w, actions, n);
             c.lookups[id].Returned? && calls[k].begin <= c.lookups[id].now && c.clock <= until
             && a.keys == Keys(c.lookups[id].keys)
    ensures k + 1 < |calls|
    ensures calls[k + 1].effect == QuoteChecked(ParseBundlePayload(dev.parse(raw)).value.quoteHex)
  {
    hide RunFrom, ParseBundlePayload, KeysetRuns.Run, VerifySignedBundleWithKeyset;
    var effects := RunFrom(dev, req, AskUser, a).effects;
    ProcessInOrder(dev, req, a);
    assert k == 3 && effects[2].BundleFetched? by { assert Position(effects[2]) == 2; }
    KeysetRuns.RotationSafe(w, actions, n, id, dev.crypto, x, raw, from, until, signedAt);
    LookupThenQuote(dev, req, a);
  }

  /** The waiting time cannot be shortened. For every signing time short of that bound there are
      a device and a moment at which its lookup, begun right after, is served a map without the
      key; a run that goes this far then reports the bundle as invalid, however it is signed. */
  lemma TooEarlyRefused(dev: Device, req: Request, a: Answers, msg: Message, earlier: Trust.SigningKeyset,
                        later: Trust.SigningKeyset, ttl: Time, from: Time, signedAt: Time)
    returns (w: KeysetRuns.World, actions: seq<KeysetRuns.Action>)
    requires Trust.TrustedMap(earlier).Some? && Trust.TrustedMap(later).Some?
    requires TrimSpace(msg.kid) !in Trust.TrustedMap(earlier).value && TrimSpace(msg.kid) in Trust.TrustedMap(later).value
    requires from <= signedAt < from + ttl - 1
    requires a.user == Some(true) && a.decisionOk && a.bundle == Some(msg)
    ensures w.ttl == ttl
    ensures KeysetRuns.PublishedThroughout(
              w, TrimSpace(msg.kid), Trust.TrustedMap(later).value[TrimSpace(msg.kid)], from, signedAt)
    ensures var c := KeysetRuns.Run(w, actions, |actions|);
            && c.clock == signedAt && 1 in c.lookups && c.lookups[1].Returned? && c.lookups[1].now == signedAt
            && RunFrom(dev, req, AskUser, a.(keys := Keys(c.lookups[1].keys))) ==
                 Ending([Asked, Decided(req.id, true), BundleFetched(req.id), KeysLookedUp,
                         Reported(req.id, Status.VerificationFailed, "BundleInvalid")], false)
  {
    hide KeysetRuns.Run, KeysetRuns.PublishedThroughout, Trust.TrustedMap, RunFrom, TrimSpace;
    w, actions := KeysetRuns.TooEarlyCanFail(earlier, later, TrimSpace(msg.kid), ttl, from, signedAt);
    UnknownKidRefused(dev, req, a, msg, KeysetRuns.Run(w, actions, |actions|).lookups[1].keys);
  }

  lemma UnknownKidRefused(dev: Device, req: Request, a: Answers, msg: Message, trusted: KeyMap)
    requires a.user == Some(true) && a.decisionOk && a.bundle == Some(msg) && TrimSpace(msg.kid) !in trusted
    ensures RunFrom(dev, req, AskUser, a.(keys := Keys(trusted))) ==
              Ending([Asked, Decided(req.id, true), BundleFetched(req.id), KeysLookedUp,
                      Reported(req.id, Status.VerificationFailed, "BundleInvalid")], false)
  {
    hide TrimSpace, StrictVerify;
    var b := a.(keys := Keys(trusted));
    assert Unpack(dev, msg, trusted) == None;
    var report := PostResult(Status.VerificationFailed, "BundleInvalid");
    ReportLast(dev, req, report, b);
    assert RunFrom(dev, req, Done(false), b) == Ending([], false);
    assert RunFrom(dev, req, report, b) == Ending([Reported(req.id, Status.VerificationFailed, "BundleInvalid")], false);
    var lookup := RunFrom(dev, req, LookUpKeys(msg), b);
    assert lookup.effects == [KeysLookedUp, Reported(req.id, Status.VerificationFailed, "BundleInvalid")] && !lookup.ok;
    var fetch := RunFrom(dev, req, FetchBundle, b);
    assert fetch.effects == [BundleFetched(req.id)] + lookup.effects && !fetch.ok;
    var post := RunFrom(dev, req, PostDecision(true), b);
    assert post.effects == [Decided(req.id, true)] + fetch.effects && !post.ok;
  }
}
