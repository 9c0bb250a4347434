/** A ledger of install tokens kept from calls and replies alone, and its agreement with the
    store's token table. */
module Tokens {
  import opened Text
  import opened Requests
  import opened StoreInvariants
  import opened Durable
  import opened Expiry

  datatype Cause = Denial | Result | Expiry | SiblingRedeemed

  datatype Fate = StillLive | Redeemed | Revoked(cause: Cause)

  datatype Entry = Entry(sid: string, fate: Fate)

  type Ledger = map<string, Entry>

  /** Everything still live for a session ends, for one cause. */
  function Close(l: Ledger, sid: string, cause: Cause): Ledger {
    map d | d in l :: if l[d] == Entry(sid, StillLive) then Entry(sid, Revoked(cause)) else l[d]
  }

  /** What an observer of one call writes down. */
  function Observe(l: Ledger, op: InstallOp, reply: Reply): Ledger {
    if reply.ExpiredSession? then Close(l, reply.session.id, Expiry)
    else if !reply.SessionReply? then l
    else match op
      case Mint(_, id, digest) => l[digest := Entry(id, StillLive)]
      case GetSession(id) => if reply.session.status == InstallFailed then Close(l, id, Expiry) else l
      case Identify(_, _, _) => l
      case Approve(id, approved) => if approved then l else Close(l, id, Denial)
      case InstallReport(id, _, _) => Close(l, id, Result)
      case Redeem(digest) => Close(l, reply.session.id, SiblingRedeemed)[digest := Entry(reply.session.id, Redeemed)]
  }

  function LedgerAt(calls: seq<Call>, n: nat): Ledger
    requires n <= |calls|
  {
    if n == 0 then map[]
    else if calls[n - 1].op.OnInstall? then
      Observe(LedgerAt(calls, n - 1), calls[n - 1].op.install, Step(EMPTY, calls, n - 1).reply)
    else LedgerAt(calls, n - 1)
  }

  /** The table holds exactly the tokens the ledger calls live, for the same sessions. */
  ghost predicate Balanced(s: Installs, l: Ledger) {
    && (forall d :: d in s.tokens ==> d in l && l[d] == Entry(s.tokens[d], StillLive))
    && (forall d :: d in l && l[d].fate == StillLive ==> d in s.tokens)
  }

  lemma DropBalances(s: Installs, l: Ledger, id: string, x: InstallSession, cause: Cause)
    requires GoodInstalls(s) && Balanced(s, l) && id in s.sessions
    ensures Balanced(Write(s, id, x, true), Close(l, id, cause))
    ensures forall d :: d in l && l[d] == Entry(id, StillLive) <==> d in s.tokens && s.tokens[d] == id
  {
  }

  /** What a call on an existing session does to the tables, read off its reply. */
  lemma ReplyTellsWrite(s: Installs, op: InstallOp, now: Time)
    requires GoodInstalls(s) && !op.Mint? && !op.GetSession?
    ensures var r := ApplyInstall(s, op, now);
            && (r.reply.Failure? ==> r.installs == s)
            && (r.reply.ExpiredSession? ==>
                  r.reply.session.id in s.sessions && r.installs == Write(s, r.reply.session.id, r.reply.session, true))
            && !r.reply.RequestReply? && !r.reply.ListReply?
  {
    hide TrimSpace, IsSpace, DropTokens;
    if op.Redeem? && op.digest in s.tokens { assert GoodToken(s, op.digest); }
  }

  /** A read revokes the live tokens of the session it finds overdue now, and no others: a
      session that failed earlier has none left. */
  lemma GetBalances(s: Installs, l: Ledger, id: string, now: Time)
    requires GoodInstalls(s) && Balanced(s, l)
    ensures var r := DoGetSession(s, id, now); Balanced(r.installs, Observe(l, GetSession(id), r.reply))
    ensures var after := Observe(l, GetSession(id), DoGetSession(s, id, now).reply);
            forall d :: d in l && l[d].fate == StillLive ==>
              d in after && (after[d].fate == Revoked(Expiry) <==> l[d].sid == id && SessionExpires(s.sessions[id], now))
  {
    hide GoodInstalls, Balanced;
    LiveIsStored(s, l);
    if id in s.sessions {
      ReadIs(s, id, now);
      hide DoGetSession, Write, ExpireSession, SessionExpires;
      if SessionExpires(s.sessions[id], now) {
        DropBalances(s, l, id, ExpireSession(s.sessions[id], now), Expiry);
      } else if s.sessions[id].status == InstallFailed {
        FailedHasNone(s, l, id);
      }
    }
  }

  lemma LiveIsStored(s: Installs, l: Ledger)
    requires GoodInstalls(s) && Balanced(s, l)
    ensures forall d :: d in l && l[d].fate == StillLive ==> l[d].sid in s.sessions
  {
    forall d | d in l && l[d].fate == StillLive ensures l[d].sid in s.sessions { assert GoodToken(s, d); }
  }

  lemma ReadIs(s: Installs, id: string, now: Time)
    requires id in s.sessions
    ensures var r := DoGetSession(s, id, now);
            if SessionExpires(s.sessions[id], now) then
              r.installs == Write(s, id, ExpireSession(s.sessions[id], now), true)
              && r.reply == SessionReply(ExpireSession(s.sessions[id], now)) && r.reply.session.status == InstallFailed
            else r.installs == s && r.reply == SessionReply(s.sessions[id])
  {
    assert s.sessions[id := s.sessions[id]] == s.sessions;
  }

  lemma FailedHasNone(s: Installs, l: Ledger, id: string)
    requires GoodInstalls(s) && Balanced(s, l) && id in s.sessions && !Open(s.sessions[id].status)
    ensures Close(l, id, Expiry) == l
  {
    forall d | d in s.tokens ensures s.tokens[d] != id { assert GoodToken(s, d); }
  }

  lemma KeepBalances(s: Installs, l: Ledger, id: string, x: InstallSession)
    requires Balanced(s, l) && id in s.sessions
    ensures Balanced(Write(s, id, x, false), l)
  {
  }

  lemma MarkRedeemed(s: Installs, l: Ledger, digest: string, x: InstallSession)
    requires GoodInstalls(s) && Balanced(s, l) && digest in s.tokens && s.tokens[digest] == x.id && x.id in s.sessions
    ensures Balanced(Write(s, x.id, x, true), Close(l, x.id, SiblingRedeemed)[digest := Entry(x.id, Redeemed)])
  {
  }

  lemma WriteBalances(s: Installs, l: Ledger, op: InstallOp, now: Time)
    requires GoodInstalls(s) && Balanced(s, l) && !op.Mint? && !op.GetSession?
    ensures var r := ApplyInstall(s, op, now); Balanced(r.installs, Observe(l, op, r.reply))
  {
    hide ApplyInstall, GoodInstalls, Close, Balanced, Write;
    var r := ApplyInstall(s, op, now);
    ReplyTellsWrite(s, op, now);
    if r.reply.ExpiredSession? {
      DropBalances(s, l, r.reply.session.id, r.reply.session, Expiry);
    } else if r.reply.Success() {
      var id, drop := SuccessWrites(s, op, now);
      var cause := if op.Approve? then Denial else if op.InstallReport? then Result else SiblingRedeemed;
      if drop { DropBalances(s, l, id, r.reply.session, cause); }
      if op.Redeem? { MarkRedeemed(s, l, op.digest, r.reply.session); }
      if !drop { KeepBalances(s, l, id, r.reply.session); }
    }
  }

  lemma ObserveBalances(s: Installs, l: Ledger, op: InstallOp, now: Time)
    requires GoodInstalls(s) && Balanced(s, l)
    ensures var r := ApplyInstall(s, op, now); Balanced(r.installs, Observe(l, op, r.reply))
  {
    if op.GetSession? {
      GetBalances(s, l, op.id, now);
    } else if !op.Mint? {
      WriteBalances(s, l, op, now);
    }
  }

  /** What ends a live token `d` of session `sid`, and nothing else does: its own redemption; the
      redemption of its session with another token; a denial; a result; or being found overdue. */
  ghost predicate FateFollows(s: Installs, op: InstallOp, r: Reply, now: Time, d: string, sid: string, after: Fate)
    requires d in s.tokens && sid in s.sessions
  {
    && (after == Redeemed <==> op == Redeem(d) && r.SessionReply?)
    && (after == Revoked(SiblingRedeemed) <==>
          op.Redeem? && op.digest != d && r.SessionReply? && op.digest in s.tokens && s.tokens[op.digest] == sid)
    && (after == Revoked(Denial) <==> op == Approve(sid, false) && r.SessionReply?)
    && (after == Revoked(Result) <==> op.InstallReport? && op.id == sid && r.SessionReply?)
    && (after == Revoked(Expiry) <==> now > s.sessions[sid].expiresAt && Looks(s, op, sid))
  }

  /** What the ledger says of a live token `d` of session `sid` after one call. */
  function FateOf(op: InstallOp, r: Reply, d: string, sid: string): Fate {
    if r.ExpiredSession? then if r.session.id == sid then Revoked(Expiry) else StillLive
    else if !r.SessionReply? then StillLive
    else match op
      case Mint(_, _, _) => StillLive
      case GetSession(id) => if id == sid && r.session.status == InstallFailed then Revoked(Expiry) else StillLive
      case Identify(_, _, _) => StillLive
      case Approve(id, approved) => if id == sid && !approved then Revoked(Denial) else StillLive
      case InstallReport(id, _, _) => if id == sid then Revoked(Result) else StillLive
      case Redeem(digest) =>
        if digest == d then Redeemed else if r.session.id == sid then Revoked(SiblingRedeemed) else StillLive
  }

  lemma LedgerTells(l: Ledger, op: InstallOp, r: Reply, d: string, sid: string)
    requires d in l && l[d] == Entry(sid, StillLive) && !(op.Mint? && op.digest == d)
    requires op.Redeem? && op.digest == d && r.SessionReply? ==> r.session.id == sid
    ensures d in Observe(l, op, r) && Observe(l, op, r)[d] == Entry(sid, FateOf(op, r, d, sid))
  {
  }

  lemma OverdueIsPast(s: Installs, id: string, now: Time)
    requires id in s.sessions && Open(s.sessions[id].status)
    ensures SessionExpires(s.sessions[id], now) <==> now > s.sessions[id].expiresAt
    ensures ExpireSession(s.sessions[id], now).id == s.sessions[id].id
    ensures ExpireSession(s.sessions[id], now).status == InstallFailed <==> SessionExpires(s.sessions[id], now)
  {
  }

  lemma FateOfCall(s: Installs, op: InstallOp, now: Time, d: string, sid: string)
    requires d in s.tokens && s.tokens[d] == sid && sid in s.sessions && Open(s.sessions[sid].status)
    requires forall id :: id in s.sessions ==> s.sessions[id].id == id
    ensures var r := ApplyInstall(s, op, now).reply;
            && FateFollows(s, op, r, now, d, sid, FateOf(op, r, d, sid))
            && (op.Redeem? && op.digest == d && r.SessionReply? ==> r.session.id == sid)
  {
    OverdueIsPast(s, sid, now);
    hide Write, Overdue, TrimSpace, SessionExpires, ExpireSession, Open;
    if op.Redeem? && op.digest in s.tokens && s.tokens[op.digest] in s.sessions {
      SameId(s, s.tokens[op.digest], now);
    } else if !op.Mint? && !op.Redeem? && op.id in s.sessions {
      SameId(s, op.id, now);
    }
  }

  lemma SameId(s: Installs, id: string, now: Time)
    requires id in s.sessions && s.sessions[id].id == id
    ensures ExpireSession(s.sessions[id], now).id == id
  {
  }

  /** How one call goes on with one live token. A mint that draws the same digest starts it anew. */
  lemma FateIs(s: Installs, l: Ledger, op: InstallOp, now: Time, d: string)
    requires GoodInstalls(s) && Balanced(s, l) && d in s.tokens && !(op.Mint? && op.digest == d)
    ensures var sid := s.tokens[d];
            var r := ApplyInstall(s, op, now).reply;
            var after := Observe(l, op, r);
            && d in l && l[d] == Entry(sid, StillLive) && sid in s.sessions && d in after && after[d].sid == sid
            && FateFollows(s, op, r, now, d, sid, after[d].fate)
  {
    assert GoodToken(s, d);
    var sid := s.tokens[d];
    hide ApplyInstall, FateFollows, FateOf, Observe;
    FateOfCall(s, op, now, d, sid);
    LedgerTells(l, op, ApplyInstall(s, op, now).reply, d, sid);
  }

  /** Does this call look at session `sid`? */
  predicate Looks(s: Installs, op: InstallOp, sid: string) {
    match op
    case Mint(_, _, _) => false
    case GetSession(id) => id == sid
    case Identify(id, connector, device) => id == sid && TrimSpace(connector) != "" && TrimSpace(device) != ""
    case Approve(id, _) => id == sid
    case InstallReport(id, _, _) => id == sid
    case Redeem(digest) => digest in s.tokens && s.tokens[digest] == sid
  }

  /** Conservation: over every run, the tokens in the table are exactly those that were
      minted and neither redeemed nor revoked by denial, result or expiry. */
  lemma {:induction false} TokensConserved(calls: seq<Call>, n: nat)
    requires n <= |calls|
    ensures Balanced(After(EMPTY, calls, n).installs, LedgerAt(calls, n))
  {
    hide ApplyInstall, ApplyRequest, Observe;
    if n > 0 {
      TokensConserved(calls, n - 1);
      IntegrityAlways(EMPTY, calls, n - 1);
      var call := calls[n - 1];
      if call.op.OnInstall? {
        ObserveBalances(After(EMPTY, calls, n - 1).installs, LedgerAt(calls, n - 1), call.op.install, call.now);
      }
    }
  }

  /** The ledger's verdict on a token is final unless the same digest is minted again. */
  lemma {:induction false} FateIsFinal(calls: seq<Call>, m: nat, n: nat, digest: string)
    requires m <= n <= |calls|
    requires digest in LedgerAt(calls, m) && LedgerAt(calls, m)[digest].fate != StillLive
    requires forall i :: m <= i < n ==> !MintsDigest(calls[i].op, digest)
    ensures digest in LedgerAt(calls, n) && LedgerAt(calls, n)[digest] == LedgerAt(calls, m)[digest]
  {
    if m < n {
      hide Observe, Integrity, Apply, After, Step;
      FateIsFinal(calls, m, n - 1, digest);
      TokensConserved(calls, n - 1);
      if calls[n - 1].op.OnInstall? {
        var op, s, l := calls[n - 1].op.install, After(EMPTY, calls, n - 1), LedgerAt(calls, n - 1);
        assert digest !in s.installs.tokens;
        assert Step(EMPTY, calls, n - 1).reply == ApplyInstall(s.installs, op, calls[n - 1].now).reply by {
          StepReply(calls, n - 1);
        }
        FateKept(s.installs, l, op, calls[n - 1].now, digest);
      }
    }
  }

  lemma StepReply(calls: seq<Call>, n: nat)
    requires n < |calls| && calls[n].op.OnInstall?
    ensures Step(EMPTY, calls, n).reply == ApplyInstall(After(EMPTY, calls, n).installs, calls[n].op.install, calls[n].now).reply
  {
  }

  lemma FateKept(s: Installs, l: Ledger, op: InstallOp, now: Time, digest: string)
    requires digest in l && l[digest].fate != StillLive && digest !in s.tokens && !MintsDigest(OnInstall(op), digest)
    ensures var after := Observe(l, op, ApplyInstall(s, op, now).reply); digest in after && after[digest] == l[digest]
  {
    hide TrimSpace, DropTokens;
  }
}
