/** The installer's run, and its agreement with the store it reports to. */
module Install {
  import opened Wrappers
  import opened Text
  import opened Requests
  import opened StoreInvariants
  import opened Durable

  // ---------- Identity ----------

  predicate HostChar(c: char) {
    'a' <= c <= 'z' || '0' <= c <= '9' || c == '-'
  }

  /** Every maximal run of other characters becomes one dash. */
  function Dashed(s: string): (t: string)
    ensures forall c :: c in t ==> HostChar(c)
  {
    if s == "" then ""
    else if HostChar(s[0]) then [s[0]] + Dashed(s[1..])
    else if |s| > 1 && !HostChar(s[1]) then Dashed(s[1..])
    else "-" + Dashed(s[1..])
  }

  function TrimDashes(s: string): (t: string)
    ensures t != "" ==> t[0] != '-' && t[|t| - 1] != '-'
    ensures forall c :: c in t ==> c in s
    decreases |s|
  {
    if s != "" && s[0] == '-' then TrimDashes(s[1..])
    else if s != "" && s[|s| - 1] == '-' then TrimDashes(s[..|s| - 1])
    else s
  }

  /** `lower` is the Unicode lower-casing; `host` is None when the name cannot be read. */
  function DefaultIdentityId(prefix: string, host: Option<string>, lower: string -> string): string {
    var name := TrimDashes(Dashed(lower(TrimSpace(if host.Some? then host.value else ""))));
    prefix + "_" + if name == "" then "local" else name
  }

  datatype Identity = Identity(connector: string, device: string)

  function Pick(configured: string, fromSession: string, fallback: string): string {
    if !Blank(configured) then TrimSpace(configured)
    else if !Blank(fromSession) then TrimSpace(fromSession)
    else fallback
  }

  function EnvValue(env: map<string, string>, key: string): string {
    if key in env then env[key] else ""
  }

  function ResolveInstallIdentity(env: map<string, string>, session: InstallSession, host: Option<string>,
                                  lower: string -> string): Identity
  {
    Identity(Pick(EnvValue(env, "CONNECTOR_ID"), session.connectorId, DefaultIdentityId("conn", host, lower)),
             Pick(EnvValue(env, "DEVICE_ID"), session.deviceId, DefaultIdentityId("dev", host, lower)))
  }

  lemma HostCharsAreNotSpace(t: string)
    requires t != "" && !IsSpace(t[0]) && !IsSpace(t[|t| - 1])
    ensures Trimmed(t) && !Blank(t)
  {
  }

  /** Whatever the host is called, the fall-back identity is trimmed and not blank. */
  lemma DefaultIdentityUsable(prefix: string, host: Option<string>, lower: string -> string)
    requires prefix == "conn" || prefix == "dev"
    ensures var id := DefaultIdentityId(prefix, host, lower); Trimmed(id) && !Blank(id)
  {
    var name := TrimDashes(Dashed(lower(TrimSpace(if host.Some? then host.value else ""))));
    var id := DefaultIdentityId(prefix, host, lower);
    assert id[0] == prefix[0];
    if name == "" {
      assert id[|id| - 1] == "local"[4];
    } else {
      assert id[|id| - 1] == name[|name| - 1] && HostChar(name[|name| - 1]);
    }
    HostCharsAreNotSpace(id);
  }

  /** The resolved ids are usable, and storing them does not change them. */
  lemma ResolvedIdentityUsable(env: map<string, string>, session: InstallSession, host: Option<string>, lower: string -> string)
    ensures var i := ResolveInstallIdentity(env, session, host, lower);
            && !Blank(i.connector) && !Blank(i.device)
            && TrimSpace(i.connector) == i.connector && TrimSpace(i.device) == i.device
  {
    DefaultIdentityUsable("conn", host, lower);
    DefaultIdentityUsable("dev", host, lower);
  }

  // ---------- The fall-back identity, from the host's name ----------

  predicate Alnum(c: char) {
    'a' <= c <= 'z' || '0' <= c <= '9'
  }

  /** The letters and digits of a name, in order. */
  function Kept(s: string): string {
    if s == "" then "" else (if Alnum(s[0]) then [s[0]] else "") + Kept(s[1..])
  }

  lemma {:induction false} KeptConcat(a: string, b: string)
    ensures Kept(a + b) == Kept(a) + Kept(b)
  {
    if a == "" {
      assert a + b == b;
    } else {
      KeptConcat(a[1..], b);
      KeptFirst(a[0], a[1..] + b);
      KeptFirst(a[0], a[1..]);
      hide Kept;
      assert a + b == [a[0]] + (a[1..] + b) && a == [a[0]] + a[1..];
    }
  }

  lemma KeptFirst(c: char, s: string)
    ensures Kept([c] + s) == (if Alnum(c) then [c] else "") + Kept(s)
  {
    assert ([c] + s)[1..] == s;
  }

  lemma {:induction false} DashedKeeps(s: string)
    ensures Kept(Dashed(s)) == Kept(s)
  {
    if s != "" {
      DashedKeeps(s[1..]);
      if HostChar(s[0]) {
        assert ([s[0]] + Dashed(s[1..]))[1..] == Dashed(s[1..]);
      } else {
        assert ("-" + Dashed(s[1..]))[1..] == Dashed(s[1..]);
      }
    }
  }

  lemma {:induction false} TrimDashesKeeps(s: string)
    ensures Kept(TrimDashes(s)) == Kept(s)
    decreases |s|
  {
    if s != "" && s[0] == '-' {
      TrimDashesKeeps(s[1..]);
    } else if s != "" && s[|s| - 1] == '-' {
      TrimDashesKeeps(s[..|s| - 1]);
      assert s == s[..|s| - 1] + "-";
      KeptConcat(s[..|s| - 1], "-");
      assert "-"[1..] == "";
    }
  }

  lemma {:induction false} NothingKept(s: string)
    requires Kept(s) == "" && forall c :: c in s ==> HostChar(c)
    ensures forall c :: c in s ==> c == '-'
  {
    if s != "" {
      assert |Kept(s)| == (if Alnum(s[0]) then 1 else 0) + |Kept(s[1..])|;
      NothingKept(s[1..]);
      assert s == [s[0]] + s[1..] && HostChar(s[0]);
    }
  }

  lemma {:induction false} DashesTrimAway(s: string)
    requires forall c :: c in s ==> c == '-'
    ensures TrimDashes(s) == ""
  {
    if s != "" {
      assert s[0] in s && forall c :: c in s[1..] ==> c in s;
      DashesTrimAway(s[1..]);
    }
  }

  /** A run of other characters, however long, becomes one dash. */
  lemma {:induction false} RunBecomesDash(a: string, run: string, b: string)
    requires run != "" && (forall c :: c in run ==> !HostChar(c))
    requires (a != "" ==> HostChar(a[|a| - 1])) && (b != "" ==> HostChar(b[0]))
    ensures Dashed(a + run + b) == Dashed(a) + "-" + Dashed(b)
    decreases |a| + |run|
  {
    hide HostChar, Dashed;
    if a == "" {
      RunAtStart(run, b);
      NothingDashed();
      assert "" + run + b == run + b && "" + "-" + Dashed(b) == "-" + Dashed(b);
    } else {
      var first, others := a[0], a[1..];
      var rest := others + run + b;
      assert a == [first] + others && a + run + b == [first] + rest;
      RunBecomesDash(others, run, b);
      DashedFirst(first, rest);
      if others != "" {
        assert rest[0] == others[0];
        DashedFirst(first, others);
        assert Lead(first, rest[0]) + (Dashed(others) + "-" + Dashed(b))
            == Lead(first, rest[0]) + Dashed(others) + "-" + Dashed(b);
      } else {
        NothingDashed();
        OneDashed(first);
        assert a == [first] && "" + "-" + Dashed(b) == "-" + Dashed(b);
        assert Lead(first, rest[0]) == [first];
        assert [first] + ("-" + Dashed(b)) == [first] + "-" + Dashed(b);
      }
    }
  }

  lemma NothingDashed()
    ensures Dashed("") == ""
  {
  }

  lemma OneDashed(c: char)
    requires HostChar(c)
    ensures Dashed([c]) == [c]
  {
    assert [c][1..] == "";
  }

  /** What a character leaves when `next` follows: nothing if both are of the other kind. */
  function Lead(c: char, next: char): string {
    if HostChar(c) then [c] else if !HostChar(next) then "" else "-"
  }

  lemma DashedFirst(c: char, s: string)
    requires s != ""
    ensures Dashed([c] + s) == Lead(c, s[0]) + Dashed(s)
  {
    hide HostChar;
    assert ([c] + s)[1..] == s && ([c] + s)[1] == s[0];
  }

  lemma {:induction false} RunAtStart(run: string, b: string)
    requires run != "" && (forall c :: c in run ==> !HostChar(c)) && (b != "" ==> HostChar(b[0]))
    ensures Dashed(run + b) == "-" + Dashed(b)
    decreases |run|
  {
    hide HostChar;
    var rest := run[1..] + b;
    assert run + b == [run[0]] + rest && run[0] in run;
    if |run| > 1 {
      assert run[1] in run && rest[0] == run[1];
      assert forall c :: c in run[1..] ==> c in run;
      RunAtStart(run[1..], b);
      DashedFirst(run[0], rest);
    } else {
      assert rest == b;
      if b == "" { LastDash(run[0]); } else { DashedFirst(run[0], b); }
    }
  }

  lemma LastDash(c: char)
    requires !HostChar(c)
    ensures Dashed([c] + "") == "-" + Dashed("")
  {
    assert ([c] + "")[1..] == "";
  }

  lemma {:induction false} CleanIsUndashed(s: string)
    requires forall c :: c in s ==> HostChar(c)
    ensures Dashed(s) == s
  {
    if s != "" { CleanIsUndashed(s[1..]); }
  }

  /** The id is the prefix and the host's lower-cased name: with its letters and digits in order
      and no dash at either end, and just as it is when it already has that form; "local" if it
      has no letter or digit, or could not be read. */
  lemma FallBackIdentity(prefix: string, host: Option<string>, lower: string -> string) returns (name: string)
    ensures DefaultIdentityId(prefix, host, lower) == prefix + "_" + name
    ensures var given := lower(TrimSpace(if host.Some? then host.value else ""));
            && (Kept(given) == "" ==> name == "local")
            && (Kept(given) != "" ==> Kept(name) == Kept(given) && name[0] != '-' && name[|name| - 1] != '-'
                                      && forall c :: c in name ==> HostChar(c))
            && (Kept(given) != "" && given[0] != '-' && given[|given| - 1] != '-' && (forall c :: c in given ==> HostChar(c))
                ==> name == given)
  {
    hide TrimSpace;
    var given := lower(TrimSpace(if host.Some? then host.value else ""));
    var trimmed := TrimDashes(Dashed(given));
    name := if trimmed == "" then "local" else trimmed;
    DashedKeeps(given);
    TrimDashesKeeps(Dashed(given));
    if Kept(given) == "" {
      NothingKept(Dashed(given));
      DashesTrimAway(Dashed(given));
    }
    if forall c :: c in given ==> HostChar(c) { CleanIsUndashed(given); }
  }

  // ---------- Calling the store ----------

  /** One request: what other callers do first, whether ours reaches the store, the store's
      clock and write, and whether the reply comes back. */
  datatype Exchange = Exchange(others: seq<Event>, reached: bool, now: Time, writeOk: bool, delivered: bool)

  datatype Answer = Answer(store: Store, reply: Option<Reply>)

  function Ask(d: Store, op: InstallOp, x: Exchange): Answer {
    var before := AfterEvents(d, x.others);
    if !x.reached then Answer(before, None)
    else
      var r := Serve(before, OnInstall(op), x.now, x.writeOk);
      Answer(r.store, if x.delivered && r.reply.Success() then Some(r.reply) else None)
  }

  // ---------- The run ----------

  datatype Config = Config(
    token: string, serviceLabel: string, agentBinary: string, plistPath: string, failureReason: string,
    env: map<string, string>)

  datatype Post = Post(outcome: InstallStatus, reason: string)

  const REQUIRED_KEYS := ["CONTROL_PLANE_URL", "DEVICE_ID", "LOCAL_USERNAME", "DCAP_VERIFIER_URL"]

  ghost predicate ConfigValid(cfg: Config, env: map<string, string>) {
    && !Blank(cfg.serviceLabel) && !Blank(cfg.agentBinary) && !Blank(cfg.plistPath)
    && forall k :: k in REQUIRED_KEYS ==> !Blank(EnvValue(env, k))
  }

  method ValidateConfig(cfg: Config, env: map<string, string>) returns (ok: bool)
    ensures ok == ConfigValid(cfg, env)
  {
    hide TrimSpace;
    if Blank(cfg.serviceLabel) || Blank(cfg.agentBinary) || Blank(cfg.plistPath) {
      return false;
    }
    for i := 0 to |REQUIRED_KEYS|
      invariant forall j :: 0 <= j < i ==> !Blank(EnvValue(env, REQUIRED_KEYS[j]))
    {
      if Blank(EnvValue(env, REQUIRED_KEYS[i])) {
        assert REQUIRED_KEYS[i] in REQUIRED_KEYS;
        return false;
      }
    }
    return true;
  }

  method CopyEnv(env: map<string, string>) returns (out: map<string, string>)
    ensures out == env
  {
    out := map[];
    var todo := env.Keys;
    while todo != {}
      invariant todo <= env.Keys && out.Keys == env.Keys - todo
      invariant forall k :: k in out ==> out[k] == env[k]
      decreases todo
    {
      var k :| k in todo;
      todo := todo - {k};
      out := out[k := env[k]];
    }
  }

  /** None of these events writes session sid; they may read it, let it expire, redeem its
      tokens, fail to write, or crash the store. */
  predicate LeavesAlone(e: Event, sid: string) {
    e.Served? && e.call.op.OnInstall? ==>
      match e.call.op.install
      case Mint(input, id, _) => id != sid || !Mintable(input)
      case Identify(id, _, _) => id != sid
      case Approve(id, _) => id != sid
      case InstallReport(id, _, _) => id != sid
      case GetSession(_) => true
      case Redeem(_) => true
  }

  ghost predicate AllLeaveAlone(others: seq<Event>, sid: string) {
    forall e :: e in others ==> LeavesAlone(e, sid)
  }

  /** The session is stored, in memory and on disk, with this identity. */
  predicate Carries(d: Store, sid: string, who: Identity) {
    SessionIs(d.mem.installs, sid, who) && SessionIs(OnDisk(d).installs, sid, who)
  }

  predicate SessionIs(s: Installs, sid: string, who: Identity) {
    sid in s.sessions && s.sessions[sid].connectorId == who.connector && s.sessions[sid].deviceId == who.device
  }

  predicate InstalledAs(d: Store, sid: string, who: Identity) {
    && Carries(d, sid, who)
    && d.mem.installs.sessions[sid].status == Installed && OnDisk(d).installs.sessions[sid].status == Installed
  }

  /** What is accepted: a label, a binary and a path, and the four variables the agent needs. */
  lemma ConfigValidIff(cfg: Config, env: map<string, string>)
    ensures ConfigValid(cfg, env) <==>
              && TrimSpace(cfg.serviceLabel) != "" && TrimSpace(cfg.agentBinary) != "" && TrimSpace(cfg.plistPath) != ""
              && Given(env, "CONTROL_PLANE_URL") && Given(env, "DEVICE_ID")
              && Given(env, "LOCAL_USERNAME") && Given(env, "DCAP_VERIFIER_URL")
  {
    hide TrimSpace;
    assert REQUIRED_KEYS[0] in REQUIRED_KEYS && REQUIRED_KEYS[1] in REQUIRED_KEYS;
    assert REQUIRED_KEYS[2] in REQUIRED_KEYS && REQUIRED_KEYS[3] in REQUIRED_KEYS;
    forall k | k in REQUIRED_KEYS ensures !Blank(EnvValue(env, k)) <==> Given(env, k) {
      assert TrimSpace("") == "";
    }
  }

  /** The variable is set, and not to white space. */
  predicate Given(env: map<string, string>, key: string) {
    key in env && TrimSpace(env[key]) != ""
  }

  /** The id under `key` is the configured one if there is one, otherwise the session's if it has
      one, and only otherwise the fall-back. */
  predicate FirstGiven(env: map<string, string>, key: string, configured: map<string, string>, fromSession: string,
                       fallback: string)
  {
    && key in env
    && (Given(configured, key) ==> env[key] == TrimSpace(configured[key]))
    && (!Given(configured, key) && TrimSpace(fromSession) != "" ==> env[key] == TrimSpace(fromSession))
    && (!Given(configured, key) && TrimSpace(fromSession) == "" ==> env[key] == fallback)
  }

  /** The service's environment: the configured one, but for the two ids. */
  lemma ServiceEnvIs(cfg: Config, session: InstallSession, host: Option<string>, lower: string -> string)
    ensures var env := ServiceEnv(cfg, session, host, lower);
            && FirstGiven(env, "CONNECTOR_ID", cfg.env, session.connectorId, DefaultIdentityId("conn", host, lower))
            && FirstGiven(env, "DEVICE_ID", cfg.env, session.deviceId, DefaultIdentityId("dev", host, lower))
            && SameElsewhere(cfg.env, env)
  {
    hide DefaultIdentityId;
    DistinctNames();
    assert TrimSpace("") == "";
    hide TrimSpace;
  }

  ghost predicate SameElsewhere(a: map<string, string>, b: map<string, string>) {
    forall k :: k != "CONNECTOR_ID" && k != "DEVICE_ID" ==> (k in a <==> k in b) && (k in a && k in b ==> a[k] == b[k])
  }

  /** The configured environment, with the session's identity filled in. */
  function ServiceEnv(cfg: Config, session: InstallSession, host: Option<string>, lower: string -> string): map<string, string> {
    var who := ResolveInstallIdentity(cfg.env, session, host, lower);
    cfg.env["CONNECTOR_ID" := who.connector]["DEVICE_ID" := who.device]
  }

  function InstallFailureReason(cfg: Config): string {
    if Blank(cfg.failureReason) then "LaunchdInstallError" else TrimSpace(cfg.failureReason)
  }

  /** The first thing that goes wrong after the redemption, as the reason to report. */
  ghost function FirstProblem(cfg: Config, env: map<string, string>, registered: bool, installOk: bool): Option<string> {
    if !ConfigValid(cfg, env) then Some("InvalidConfig")
    else if !registered then Some("IdentityRegistrationError")
    else if !installOk then Some(InstallFailureReason(cfg))
    else None
  }

  /** The reasons, and their order. */
  lemma ReasonsAre(cfg: Config, env: map<string, string>, registered: bool, installOk: bool)
    ensures var valid := && TrimSpace(cfg.serviceLabel) != "" && TrimSpace(cfg.agentBinary) != ""
                         && TrimSpace(cfg.plistPath) != ""
                         && Given(env, "CONTROL_PLANE_URL") && Given(env, "DEVICE_ID")
                         && Given(env, "LOCAL_USERNAME") && Given(env, "DCAP_VERIFIER_URL");
            var p := FirstProblem(cfg, env, registered, installOk);
            && (!valid ==> p == Some("InvalidConfig"))
            && (valid && !registered ==> p == Some("IdentityRegistrationError"))
            && (valid && registered && !installOk && TrimSpace(cfg.failureReason) != "" ==>
                  p == Some(TrimSpace(cfg.failureReason)))
            && (valid && registered && !installOk && TrimSpace(cfg.failureReason) == "" ==> p == Some("LaunchdInstallError"))
            && (valid && registered && installOk ==> p == None)
  {
    ConfigValidIff(cfg, env);
    hide ConfigValid, TrimSpace;
  }

  /** The installer, against a store that others use at the same time. `installOk` is whether
      the service could be installed and started.

      A result is posted exactly once if the redemption succeeded, and never otherwise; it names
      the first thing that went wrong. The run succeeds exactly when nothing did and the final
      report was accepted. If it succeeds and nobody else wrote the session after its
      registration, the session ends as installed, in memory and on disk, with exactly the ids
      in the service's environment: the configured ones first, then the session's, and the
      host's only where there is neither. */
  method Run(d0: Store, cfg: Config, digest: string, host: Option<string>, lower: string -> string,
             x1: Exchange, x2: Exchange, x3: Exchange, installOk: bool)
    returns (d: Store, ok: bool, session: Option<InstallSession>, env: map<string, string>, posts: seq<Post>)
    requires Integrity(d0.mem) && Integrity(OnDisk(d0))
    ensures var redeemed := Ask(d0, Redeem(digest), x1);
            if redeemed.reply.None? then session == None && posts == [] && !ok && d == redeemed.store
            else
              && session.Some? && redeemed.reply == Some(SessionReply(session.value))
              && env == ServiceEnv(cfg, session.value, host, lower)
              && var sid := session.value.id;
                 var registered := Ask(redeemed.store, Identify(sid, env["CONNECTOR_ID"], env["DEVICE_ID"]), x2);
                 var problem := FirstProblem(cfg, env, registered.reply.Some?, installOk);
                 var post := if problem.Some? then Post(InstallFailed, problem.value) else Post(Installed, "");
                 var reported := Ask(if ConfigValid(cfg, env) then registered.store else redeemed.store,
                                     InstallReport(sid, post.outcome, post.reason), x3);
                 posts == [post] && d == reported.store && ok == (problem.None? && reported.reply.Some?)
    ensures session.Some? ==>
              && FirstGiven(env, "CONNECTOR_ID", cfg.env, session.value.connectorId, DefaultIdentityId("conn", host, lower))
              && FirstGiven(env, "DEVICE_ID", cfg.env, session.value.deviceId, DefaultIdentityId("dev", host, lower))
              && SameElsewhere(cfg.env, env)
    ensures ok && AllLeaveAlone(x3.others, session.value.id) ==>
              InstalledAs(d, session.value.id, Identity(env["CONNECTOR_ID"], env["DEVICE_ID"]))
  {
    hide TrimSpace, Serve, AfterEvents, ConfigValid, Carries, InstalledAs, AllLeaveAlone, Integrity, Ask,
         ResolveInstallIdentity, FirstGiven, SameElsewhere;
    env, posts, session := map[], [], None;
    var redeemed := Ask(d0, Redeem(digest), x1);
    AskKeepsIntegrity(d0, Redeem(digest), x1);
    d := redeemed.store;
    if redeemed.reply.None? {
      return d, false, None, env, posts;
    }
    RedeemReplyIsSession(d0, digest, x1);
    session := Some(redeemed.reply.value.session);
    var sid := session.value.id;

    env := CopyEnv(cfg.env);
    var who := ResolveInstallIdentity(env, session.value, host, lower);
    ResolvedIdentityUsable(env, session.value, host, lower);
    env := env["CONNECTOR_ID" := who.connector];
    env := env["DEVICE_ID" := who.device];
    assert env["CONNECTOR_ID"] == who.connector && env["DEVICE_ID"] == who.device by { DistinctNames(); }
    ServiceEnvIs(cfg, session.value, host, lower);

    var valid := ValidateConfig(cfg, env);
    if !valid {
      d, posts := FailInstall(d, sid, "InvalidConfig", x3);
      return d, false, session, env, posts;
    }
    var registered := Ask(d, Identify(sid, who.connector, who.device), x2);
    if registered.reply.None? {
      d, posts := FailInstall(registered.store, sid, "IdentityRegistrationError", x3);
      return d, false, session, env, posts;
    }
    AskKeepsIntegrity(d, Identify(sid, who.connector, who.device), x2);
    RegistrationStores(d, sid, who, x2);
    d := registered.store;

    var reason := TrimSpace(cfg.failureReason);
    if reason == "" {
      reason := "LaunchdInstallError";
    }
    if !installOk {
      d, posts := FailInstall(d, sid, reason, x3);
      return d, false, session, env, posts;
    }
    var reported := Ask(d, InstallReport(sid, Installed, ""), x3);
    posts := [Post(Installed, "")];
    ok := reported.reply.Some?;
    if ok && AllLeaveAlone(x3.others, sid) {
      ReportInstalls(d, sid, who, x3);
    }
    d := reported.store;
  }

  lemma DistinctNames()
    ensures "CONNECTOR_ID" != "DEVICE_ID"
  {
    assert "CONNECTOR_ID"[0] != "DEVICE_ID"[0];
  }

  method FailInstall(d: Store, sid: string, reason: string, x: Exchange) returns (after: Store, posts: seq<Post>)
    ensures after == Ask(d, InstallReport(sid, InstallFailed, reason), x).store
    ensures posts == [Post(InstallFailed, reason)]
  {
    return Ask(d, InstallReport(sid, InstallFailed, reason), x).store, [Post(InstallFailed, reason)];
  }

  // ---------- Why the run and the store agree ----------

  lemma {:induction false} OthersKeepIntegrity(d: Store, others: seq<Event>)
    requires Integrity(d.mem) && Integrity(OnDisk(d))
    ensures Integrity(AfterEvents(d, others).mem) && Integrity(OnDisk(AfterEvents(d, others)))
    decreases |others|
  {
    if others != [] {
      var e := others[0];
      if e.Served? { IntegrityKept(d.mem, e.call.op, e.call.now); }
      hide Apply, Integrity;
      OthersKeepIntegrity(Durable.Next(d, e), others[1..]);
    }
  }

  lemma AskKeepsIntegrity(d: Store, op: InstallOp, x: Exchange)
    requires Integrity(d.mem) && Integrity(OnDisk(d))
    ensures Integrity(Ask(d, op, x).store.mem) && Integrity(OnDisk(Ask(d, op, x).store))
  {
    hide Apply, Integrity, AfterEvents;
    OthersKeepIntegrity(d, x.others);
    IntegrityKept(AfterEvents(d, x.others).mem, OnInstall(op), x.now);
  }

  lemma RedeemReplyIsSession(d: Store, digest: string, x: Exchange)
    requires Ask(d, Redeem(digest), x).reply.Some?
    ensures Ask(d, Redeem(digest), x).reply.value.SessionReply?
  {
  }

  /** An accepted registration leaves the identity in memory and on disk. */
  lemma RegistrationStores(d: Store, sid: string, who: Identity, x: Exchange)
    requires TrimSpace(who.connector) == who.connector && TrimSpace(who.device) == who.device
    requires Ask(d, Identify(sid, who.connector, who.device), x).reply.Some?
    ensures Carries(Ask(d, Identify(sid, who.connector, who.device), x).store, sid, who)
  {
    hide TrimSpace, AfterEvents;
  }

  lemma OneCallKeepsIdentity(s: Installs, op: InstallOp, now: Time, sid: string, who: Identity)
    requires GoodInstalls(s) && SessionIs(s, sid, who)
    requires LeavesAlone(Served(Call(OnInstall(op), now, now), true), sid)
    ensures SessionIs(ApplyInstall(s, op, now).installs, sid, who)
  {
    hide ApplyInstall, GoodInstalls, SessionMoves, GoodSession, LacksIdentity;
    if op.Mint? {
      MintKeepsOthers(s, op, now, sid);
    } else if ApplyInstall(s, op, now).installs != s {
      var id, x, drop := InstallStep(s, op, now);
    }
  }

  lemma EventKeepsCarried(d: Store, e: Event, sid: string, who: Identity)
    requires Integrity(d.mem) && Integrity(OnDisk(d)) && Carries(d, sid, who) && LeavesAlone(e, sid)
    ensures Carries(Durable.Next(d, e), sid, who)
    ensures Integrity(Durable.Next(d, e).mem) && Integrity(OnDisk(Durable.Next(d, e)))
  {
    hide ApplyInstall, ApplyRequest, GoodItems, GoodInstalls;
    if e.Served? {
      IntegrityKept(d.mem, e.call.op, e.call.now);
      if e.call.op.OnInstall? {
        OneCallKeepsIdentity(d.mem.installs, e.call.op.install, e.call.now, sid, who);
      }
    }
  }

  lemma {:induction false} OthersKeepIdentity(d: Store, others: seq<Event>, sid: string, who: Identity)
    requires Integrity(d.mem) && Integrity(OnDisk(d)) && Carries(d, sid, who) && AllLeaveAlone(others, sid)
    ensures Carries(AfterEvents(d, others), sid, who)
    decreases |others|
  {
    if others != [] {
      hide Next, Integrity, Carries, LeavesAlone;
      assert LeavesAlone(others[0], sid);
      EventKeepsCarried(d, others[0], sid, who);
      OthersKeepIdentity(Durable.Next(d, others[0]), others[1..], sid, who);
    }
  }

  /** An accepted "installed" report finds the registered identity and fixes it. */
  lemma ReportInstalls(d: Store, sid: string, who: Identity, x: Exchange)
    requires Integrity(d.mem) && Integrity(OnDisk(d)) && Carries(d, sid, who) && AllLeaveAlone(x.others, sid)
    requires Ask(d, InstallReport(sid, Installed, ""), x).reply.Some?
    ensures InstalledAs(Ask(d, InstallReport(sid, Installed, ""), x).store, sid, who)
  {
    hide TrimSpace, AfterEvents, Integrity;
    OthersKeepIdentity(d, x.others, sid, who);
    ReportFixes(AfterEvents(d, x.others), sid, who, x.now, x.writeOk);
  }

  lemma ReportFixes(d: Store, sid: string, who: Identity, now: Time, writeOk: bool)
    requires Carries(d, sid, who) && Serve(d, OnInstall(InstallReport(sid, Installed, "")), now, writeOk).reply.Success()
    ensures InstalledAs(Serve(d, OnInstall(InstallReport(sid, Installed, "")), now, writeOk).store, sid, who)
  {
    hide TrimSpace;
  }

  /** What a failure report amounts to: it is accepted exactly when the session is approved and
      in time, the report and its reply arrive and the write succeeds; the session is then
      closed, in memory and on disk, with exactly this reason and no token left. */
  lemma FailureRecorded(d: Store, sid: string, reason: string, x: Exchange)
    requires Integrity(d.mem) && Integrity(OnDisk(d))
    ensures var before := AfterEvents(d, x.others).mem.installs;
            var a := Ask(d, InstallReport(sid, InstallFailed, reason), x);
            var due := && sid in before.sessions && before.sessions[sid].status == InstallApproved
                       && !SessionExpires(before.sessions[sid], x.now);
            && (a.reply.Some? <==> due && x.reached && x.writeOk && x.delivered)
            && (a.reply.Some? ==> FailedWith(a.store.mem.installs, sid, reason) && FailedWith(OnDisk(a.store).installs, sid, reason))
  {
    hide AfterEvents, TrimSpace;
    AskKeepsIntegrity(d, InstallReport(sid, InstallFailed, reason), x);
    hide Integrity;
    assert Integrity(AfterEvents(d, x.others).mem) by { OthersKeepIntegrity(d, x.others); }
    ReportFails(AfterEvents(d, x.others).mem, sid, reason, x.now);
  }

  predicate FailedWith(s: Installs, sid: string, reason: string) {
    && sid in s.sessions && s.sessions[sid].status == InstallFailed && s.sessions[sid].reason == reason
    && sid !in s.tokens.Values
  }

  lemma ReportFails(s: State, sid: string, reason: string, now: Time)
    requires Integrity(s)
    ensures var r := Apply(s, OnInstall(InstallReport(sid, InstallFailed, reason)), now);
            && (r.reply.Success() <==> && sid in s.installs.sessions && s.installs.sessions[sid].status == InstallApproved
                                       && !SessionExpires(s.installs.sessions[sid], now))
            && (r.reply.Success() ==> FailedWith(r.state.installs, sid, reason))
  {
    hide TrimSpace;
  }

  /** Once a session has an identity it keeps one, whoever writes it, unless its id is minted
      again. */
  lemma IdentityNeverLost(s: Installs, op: InstallOp, now: Time, sid: string)
    requires GoodInstalls(s) && sid in s.sessions && !LacksIdentity(s.sessions[sid])
    requires !MintsSession(OnInstall(op), sid)
    ensures var t := ApplyInstall(s, op, now).installs; sid in t.sessions && !LacksIdentity(t.sessions[sid])
  {
    hide ApplyInstall, GoodInstalls, LacksIdentity, SessionMoves, GoodSession;
    if op.Mint? {
      MintKeepsOthers(s, op, now, sid);
    } else if ApplyInstall(s, op, now).installs != s {
      var id, x, drop := InstallStep(s, op, now);
      if id == sid && LacksIdentity(x) {
        SameIdentity(x, s.sessions[sid]);
      }
    }
  }

  lemma SameIdentity(x: InstallSession, y: InstallSession)
    requires x.connectorId == y.connectorId && x.deviceId == y.deviceId
    ensures LacksIdentity(x) == LacksIdentity(y)
  {
  }

  predicate HasIdentity(d: Store, sid: string) {
    && sid in d.mem.installs.sessions && !LacksIdentity(d.mem.installs.sessions[sid])
    && sid in OnDisk(d).installs.sessions && !LacksIdentity(OnDisk(d).installs.sessions[sid])
  }

  lemma EventKeepsIdentity(d: Store, e: Event, sid: string)
    requires Integrity(d.mem) && Integrity(OnDisk(d)) && HasIdentity(d, sid)
    requires e.Served? ==> !MintsSession(e.call.op, sid)
    ensures HasIdentity(Durable.Next(d, e), sid)
    ensures Integrity(Durable.Next(d, e).mem) && Integrity(OnDisk(Durable.Next(d, e)))
  {
    hide ApplyInstall, ApplyRequest, GoodItems, GoodInstalls, LacksIdentity;
    if e.Served? {
      IntegrityKept(d.mem, e.call.op, e.call.now);
      if e.call.op.OnInstall? {
        IdentityNeverLost(d.mem.installs, e.call.op.install, e.call.now, sid);
      }
    }
  }

  lemma {:induction false} OthersNeverLoseIdentity(d: Store, others: seq<Event>, sid: string)
    requires Integrity(d.mem) && Integrity(OnDisk(d)) && HasIdentity(d, sid)
    requires forall e :: e in others && e.Served? ==> !MintsSession(e.call.op, sid)
    ensures HasIdentity(AfterEvents(d, others), sid)
    decreases |others|
  {
    if others != [] {
      hide Next, Integrity, HasIdentity;
      assert others[0] in others;
      EventKeepsIdentity(d, others[0], sid);
      OthersNeverLoseIdentity(Durable.Next(d, others[0]), others[1..], sid);
    }
  }

  /** After an accepted registration, whatever others do (even to that session), an "installed"
      report is never rejected for missing identity: it succeeds exactly when the session is
      still approved, not overdue, and the write succeeds. */
  lemma ReportNeverLacksIdentity(d: Store, sid: string, who: Identity, x2: Exchange, x3: Exchange)
    requires Integrity(d.mem) && Integrity(OnDisk(d))
    requires TrimSpace(who.connector) == who.connector && TrimSpace(who.device) == who.device
    requires Ask(d, Identify(sid, who.connector, who.device), x2).reply.Some?
    requires forall e :: e in x3.others && e.Served? ==> !MintsSession(e.call.op, sid)
    ensures var before := AfterEvents(Ask(d, Identify(sid, who.connector, who.device), x2).store, x3.others);
            && sid in before.mem.installs.sessions
            && var x := before.mem.installs.sessions[sid];
               (Serve(before, OnInstall(InstallReport(sid, Installed, "")), x3.now, x3.writeOk).reply.Success()
                <==> x.status == InstallApproved && !SessionExpires(x, x3.now) && x3.writeOk)
  {
    hide TrimSpace, AfterEvents, Integrity;
    var registered := Ask(d, Identify(sid, who.connector, who.device), x2).store;
    RegistrationStores(d, sid, who, x2);
    AskKeepsIntegrity(d, Identify(sid, who.connector, who.device), x2);
    OthersNeverLoseIdentity(registered, x3.others, sid);
  }
}
