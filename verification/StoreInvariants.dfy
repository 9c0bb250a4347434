/** What every call keeps, for any clock readings and even when identifiers collide. */
module StoreInvariants {
  import opened Text
  import opened Requests

  predicate GoodRequest(key: string, r: ConnectionRequest) {
    && r.id == key
    && !r.status.OtherStatus?
    && (r.reason != "" ==> r.status == Connected || r.status == VerificationFailed)
  }

  predicate GoodSession(key: string, x: InstallSession) {
    && x.id == key
    && !x.status.OtherInstallStatus?
    && (Open(x.status) ==> x.reason == "")
    && (x.status == Installed ==> !LacksIdentity(x))
  }

  /** Every token leads to a session that is still open. */
  predicate GoodToken(s: Installs, digest: string)
    requires digest in s.tokens
  {
    s.tokens[digest] in s.sessions && Open(s.sessions[s.tokens[digest]].status)
  }

  ghost predicate GoodItems(s: Items) {
    forall id :: id in s ==> GoodRequest(id, s[id])
  }

  ghost predicate GoodInstalls(s: Installs) {
    && (forall id :: id in s.sessions ==> GoodSession(id, s.sessions[id]))
    && (forall d :: d in s.tokens ==> GoodToken(s, d))
  }

  ghost predicate Integrity(s: State) {
    GoodItems(s.items) && GoodInstalls(s.installs)
  }

  lemma GoodItemsKept(s: Items, op: RequestOp, now: Time)
    requires GoodItems(s)
    ensures GoodItems(ApplyRequest(s, op, now).items)
  {
  }

  /** Only a registration changes a session's identity, and only to a non-blank one. */
  predicate WritesIdentity(s: Installs, op: InstallOp, id: string, x: InstallSession)
    requires id in s.sessions
  {
    || (op.Identify? && !LacksIdentity(x))
    || (x.connectorId == s.sessions[id].connectorId && x.deviceId == s.sessions[id].deviceId)
  }

  /** Every call on install sessions either leaves them alone, adds a session, or writes one
      session, and then only in the way SessionMoves allows; a session that is closed, or was
      redeemed, loses its tokens. */
  lemma InstallStep(s: Installs, op: InstallOp, now: Time) returns (id: string, x: InstallSession, drop: bool)
    requires GoodInstalls(s) && !op.Mint? && ApplyInstall(s, op, now).installs != s
    ensures id in s.sessions && ApplyInstall(s, op, now).installs == Write(s, id, x, drop)
    ensures GoodSession(id, x) && SessionMoves(s.sessions[id], x)
    ensures !Open(x.status) ==> drop
    ensures op.Redeem? || id == op.id
    ensures WritesIdentity(s, op, id, x)
  {
    hide TrimSpace, IsSpace, DropTokens;
    id := if op.Redeem? then s.tokens[op.digest] else op.id;
    if op.Redeem? { assert GoodToken(s, op.digest); }
    var t := ApplyInstall(s, op, now).installs;
    x := t.sessions[id];
    drop := op.Redeem? || !Open(x.status);
    if !drop || s.sessions[id] == x {
      assert t.sessions == s.sessions[id := x];
    }
  }

  lemma GoodInstallsAfterWrite(s: Installs, id: string, x: InstallSession, drop: bool)
    requires GoodInstalls(s) && id in s.sessions && GoodSession(id, x) && (!Open(x.status) ==> drop)
    ensures GoodInstalls(Write(s, id, x, drop))
  {
    var t := Write(s, id, x, drop);
    forall d | d in t.tokens ensures GoodToken(t, d) { assert GoodToken(s, d); }
  }

  lemma GoodInstallsKept(s: Installs, op: InstallOp, now: Time)
    requires GoodInstalls(s)
    ensures GoodInstalls(ApplyInstall(s, op, now).installs)
  {
    hide ApplyInstall, GoodInstalls;
    if op.Mint? {
      MintKeepsGood(s, op, now);
    } else if ApplyInstall(s, op, now).installs != s {
      var id, x, drop := InstallStep(s, op, now);
      GoodInstallsAfterWrite(s, id, x, drop);
    }
  }

  lemma MintKeepsGood(s: Installs, op: InstallOp, now: Time)
    requires GoodInstalls(s) && op.Mint?
    ensures GoodInstalls(ApplyInstall(s, op, now).installs)
  {
    hide LacksIdentity;
    var t := ApplyInstall(s, op, now).installs;
    forall d | d in t.tokens ensures GoodToken(t, d) {
      if d in s.tokens { assert GoodToken(s, d); }
    }
  }

  /** A mint leaves every other session as it is. */
  lemma MintKeepsOthers(s: Installs, op: InstallOp, now: Time, id: string)
    requires op.Mint? && !MintsSession(OnInstall(op), id)
    ensures id in ApplyInstall(s, op, now).installs.sessions <==> id in s.sessions
    ensures id in s.sessions ==> ApplyInstall(s, op, now).installs.sessions[id] == s.sessions[id]
  {
  }

  lemma IntegrityKept(s: State, op: Op, now: Time)
    requires Integrity(s)
    ensures Integrity(Apply(s, op, now).state)
  {
    match op
    case OnRequest(o) => GoodItemsKept(s.items, o, now);
    case OnInstall(o) => GoodInstallsKept(s.installs, o, now);
  }

  /** Integrity in every reachable state. */
  lemma {:induction false} IntegrityAlways(s: State, calls: seq<Call>, n: nat)
    requires Integrity(s) && n <= |calls|
    ensures Integrity(After(s, calls, n))
  {
    if n > 0 {
      IntegrityAlways(s, calls, n - 1);
      IntegrityKept(After(s, calls, n - 1), calls[n - 1].op, calls[n - 1].now);
    }
  }

  /** A session that a call finds overdue ends with reason exactly "Expired" and no token. */
  lemma OverdueReason(s: Installs, op: InstallOp, now: Time)
    requires GoodInstalls(s)
    ensures var r := ApplyInstall(s, op, now);
            r.reply.ExpiredSession? ==>
              && r.reply.session.status == InstallFailed && r.reply.session.reason == "Expired"
              && r.reply.session.id in s.sessions && r.reply.session.id in r.installs.sessions
              && r.installs.sessions[r.reply.session.id] == r.reply.session
              && r.reply.session.id !in r.installs.tokens.Values
  {
  }

  /** The branch of a redemption that finds a token without its session is never taken:
      a redemption fails as "not found" exactly when the token itself is unknown. */
  lemma RedeemFindsSession(s: Installs, digest: string, now: Time)
    requires GoodInstalls(s)
    ensures DoRedeem(s, digest, now).reply == Failure(NotFound) <==> digest !in s.tokens
  {
    if digest in s.tokens { assert GoodToken(s, digest); }
  }

  // ---------- Histories ----------

  /** Does this call draw this id? A call refused for its input draws nothing. */
  predicate CreatesRequest(op: Op, id: string) {
    op.OnRequest? && op.request.Create? && op.request.id == id && Creatable(op.request.input)
  }

  predicate MintsSession(op: Op, sid: string) {
    op.OnInstall? && op.install.Mint? && op.install.id == sid && Mintable(op.install.input)
  }

  /** Position in the order a request's status moves along. */
  function RequestRank(status: Status): nat {
    match status
    case Pending => 0
    case Approved => 1
    case _ => 2
  }

  function SessionRank(status: InstallStatus): nat {
    match status
    case Requested => 0
    case InstallApproved => 1
    case _ => 2
  }

  /** What may happen to a stored request: nothing, or a move forward that leaves its
      identity, nonce and lifetime alone. */
  predicate RequestMoves(a: ConnectionRequest, b: ConnectionRequest) {
    || a == b
    || (&& RequestRank(a.status) < RequestRank(b.status)
        && b == a.(status := b.status, reason := b.reason))
  }

  /** An open session may move forward or be given its identity; a closed one is final. */
  predicate SessionMoves(a: InstallSession, b: InstallSession) {
    || a == b
    || (&& Open(a.status)
        && SessionRank(a.status) <= SessionRank(b.status)
        && (!Open(b.status) ==> SessionRank(a.status) < SessionRank(b.status))
        && b == a.(status := b.status, reason := b.reason, connectorId := b.connectorId, deviceId := b.deviceId))
  }

  /** Every entry of s under `id` has at most moved forward in t. */
  predicate RequestAhead(s: State, t: State, id: string) {
    id in s.items ==> id in t.items && RequestMoves(s.items[id], t.items[id])
  }

  predicate SessionAhead(s: State, t: State, id: string) {
    id in s.installs.sessions ==>
      id in t.installs.sessions && SessionMoves(s.installs.sessions[id], t.installs.sessions[id])
  }

  lemma RequestAheadTransitive(a: State, b: State, c: State, id: string)
    requires RequestAhead(a, b, id) && RequestAhead(b, c, id)
    ensures RequestAhead(a, c, id)
  {
  }

  lemma SessionAheadTransitive(a: State, b: State, c: State, id: string)
    requires SessionAhead(a, b, id) && SessionAhead(b, c, id)
    ensures SessionAhead(a, c, id)
  {
  }

  /** One call, one request: only drawing its id again can do anything but move it forward. */
  lemma RequestsMoveForward(s: State, op: Op, now: Time, id: string)
    requires Integrity(s) && (CreatesRequest(op, id) ==> id !in s.items)
    ensures RequestAhead(s, Apply(s, op, now).state, id)
  {
    if op.OnRequest? { RequestMovesOn(s.items, op.request, now, id); }
  }

  lemma RequestMovesOn(s: Items, op: RequestOp, now: Time, id: string)
    requires GoodItems(s) && (CreatesRequest(OnRequest(op), id) ==> id !in s)
    ensures id in s ==> id in ApplyRequest(s, op, now).items && RequestMoves(s[id], ApplyRequest(s, op, now).items[id])
  {
  }

  /** The same for sessions. */
  lemma SessionsMoveForward(s: State, op: Op, now: Time, id: string)
    requires Integrity(s) && (MintsSession(op, id) ==> id !in s.installs.sessions)
    ensures SessionAhead(s, Apply(s, op, now).state, id)
  {
    hide ApplyInstall, ApplyRequest, GoodInstalls, GoodSession, GoodItems, SessionMoves;
    if id in s.installs.sessions {
      Stays(s.installs.sessions[id]);
      if op.OnInstall? {
        if op.install.Mint? {
          MintKeepsOthers(s.installs, op.install, now, id);
        } else if ApplyInstall(s.installs, op.install, now).installs != s.installs {
          var sid, x, drop := InstallStep(s.installs, op.install, now);
        }
      }
    }
  }

  lemma Stays(x: InstallSession)
    ensures SessionMoves(x, x)
  {
  }

  /** Whole runs, any clock: between two moments a request has only moved forward, unless its
      own id is drawn again between them; what happens to other ids does not matter. */
  lemma {:induction false} RequestHistory(s: State, calls: seq<Call>, m: nat, n: nat, id: string)
    requires Integrity(s) && m <= n <= |calls| && id in After(s, calls, m).items
    requires forall i :: m <= i < n ==> !CreatesRequest(calls[i].op, id)
    ensures id in After(s, calls, n).items && RequestMoves(After(s, calls, m).items[id], After(s, calls, n).items[id])
  {
    if m < n {
      hide Integrity, Apply, RequestMoves;
      RequestHistory(s, calls, m, n - 1, id);
      IntegrityAlways(s, calls, n - 1);
      RequestsMoveForward(After(s, calls, n - 1), calls[n - 1].op, calls[n - 1].now, id);
      assert After(s, calls, n) == Apply(After(s, calls, n - 1), calls[n - 1].op, calls[n - 1].now).state;
      RequestAheadTransitive(After(s, calls, m), After(s, calls, n - 1), After(s, calls, n), id);
    }
  }

  lemma {:induction false} SessionHistory(s: State, calls: seq<Call>, m: nat, n: nat, id: string)
    requires Integrity(s) && m <= n <= |calls| && id in After(s, calls, m).installs.sessions
    requires forall i :: m <= i < n ==> !MintsSession(calls[i].op, id)
    ensures id in After(s, calls, n).installs.sessions
    ensures SessionMoves(After(s, calls, m).installs.sessions[id], After(s, calls, n).installs.sessions[id])
  {
    if m < n {
      hide Integrity, Apply, SessionMoves;
      SessionHistory(s, calls, m, n - 1, id);
      IntegrityAlways(s, calls, n - 1);
      SessionsMoveForward(After(s, calls, n - 1), calls[n - 1].op, calls[n - 1].now, id);
      assert After(s, calls, n) == Apply(After(s, calls, n - 1), calls[n - 1].op, calls[n - 1].now).state;
      SessionAheadTransitive(After(s, calls, m), After(s, calls, n - 1), After(s, calls, n), id);
    }
  }

  /** A terminal entry does not change in any field until its own id is drawn again. */
  lemma TerminalForever(s: State, calls: seq<Call>, m: nat, n: nat, id: string)
    requires Integrity(s) && m <= n <= |calls|
    ensures var a, b := After(s, calls, m).items, After(s, calls, n).items;
            && id in a && RequestRank(a[id].status) == 2
            && (forall i :: m <= i < n ==> !CreatesRequest(calls[i].op, id))
            ==> id in b && b[id] == a[id]
    ensures var a, b := After(s, calls, m).installs.sessions, After(s, calls, n).installs.sessions;
            && id in a && SessionRank(a[id].status) == 2
            && (forall i :: m <= i < n ==> !MintsSession(calls[i].op, id))
            ==> id in b && b[id] == a[id]
  {
    hide After, Integrity;
    if id in After(s, calls, m).items && forall i :: m <= i < n ==> !CreatesRequest(calls[i].op, id) {
      RequestHistory(s, calls, m, n, id);
    }
    if id in After(s, calls, m).installs.sessions && forall i :: m <= i < n ==> !MintsSession(calls[i].op, id) {
      SessionHistory(s, calls, m, n, id);
    }
  }

  // ---------- Evidence behind a status ----------

  predicate ApprovesOf(op: Op, id: string) {
    op.OnRequest? && op.request == Decide(id, true)
  }

  predicate ConnectsOf(op: Op, id: string, reason: string) {
    op.OnRequest? && op.request == Report(id, Connected, reason)
  }

  /** A request is approved by one call only: a local approval in time. */
  lemma ApprovalStep(s: Items, op: RequestOp, now: Time, id: string)
    requires var t := ApplyRequest(s, op, now).items; id in t && t[id].status == Approved
    ensures var r := ApplyRequest(s, op, now);
            || (id in s && s[id] == r.items[id])
            || (op == Decide(id, true) && r.reply.Success() && now <= r.items[id].expiresAt)
  {
  }

  /** A request is connected by one call only: a result in time, on an approved request. */
  lemma ConnectionStep(s: Items, op: RequestOp, now: Time, id: string)
    requires var t := ApplyRequest(s, op, now).items; id in t && t[id].status == Connected
    ensures var r := ApplyRequest(s, op, now);
            id in s &&
            (|| s[id] == r.items[id]
             || (&& op == Report(id, Connected, r.items[id].reason) && r.reply.Success()
                 && now <= r.items[id].expiresAt == s[id].expiresAt && s[id].status == Approved))
  {
  }

  /** Call number `i` approved request `id`, no later than its expiry. */
  predicate ApprovedAt(calls: seq<Call>, i: nat, id: string, expiresAt: Time)
    requires i < |calls|
  {
    ApprovesOf(calls[i].op, id) && Step(EMPTY, calls, i).reply.Success() && calls[i].now <= expiresAt
  }

  predicate ConnectedAt(calls: seq<Call>, j: nat, r: ConnectionRequest, id: string)
    requires j < |calls|
  {
    ConnectsOf(calls[j].op, id, r.reason) && Step(EMPTY, calls, j).reply.Success() && calls[j].now <= r.expiresAt
  }

  /** From an empty store, an approved request was approved on the device, in time. */
  lemma {:induction false} ApprovedHasEvidence(calls: seq<Call>, n: nat, id: string) returns (i: nat)
    requires n <= |calls|
    requires var s := After(EMPTY, calls, n).items; id in s && s[id].status == Approved
    ensures i < n && ApprovedAt(calls, i, id, After(EMPTY, calls, n).items[id].expiresAt)
  {
    var before, call := After(EMPTY, calls, n - 1), calls[n - 1];
    i := n - 1;
    if call.op.OnRequest? {
      ApprovalStep(before.items, call.op.request, call.now, id);
      if !ApprovedAt(calls, n - 1, id, After(EMPTY, calls, n).items[id].expiresAt) {
        i := ApprovedHasEvidence(calls, n - 1, id);
      }
    } else {
      i := ApprovedHasEvidence(calls, n - 1, id);
    }
  }

  /** From an empty store, a connected request's trace holds a successful local approval
      followed by a successful result, each at a reading no later than its expiry. The clock
      may run backwards and ids may collide. */
  lemma {:induction false} ConnectedHasEvidence(calls: seq<Call>, n: nat, id: string) returns (i: nat, j: nat)
    requires n <= |calls|
    requires var s := After(EMPTY, calls, n).items; id in s && s[id].status == Connected
    ensures i < j < n
    ensures var r := After(EMPTY, calls, n).items[id];
            ApprovedAt(calls, i, id, r.expiresAt) && ConnectedAt(calls, j, r, id)
  {
    var before, call := After(EMPTY, calls, n - 1), calls[n - 1];
    var r := After(EMPTY, calls, n).items[id];
    if call.op.OnRequest? {
      ConnectionStep(before.items, call.op.request, call.now, id);
    }
    if before.items[id] == r {
      i, j := ConnectedHasEvidence(calls, n - 1, id);
    } else {
      j := n - 1;
      i := ApprovedHasEvidence(calls, n - 1, id);
    }
  }
}
