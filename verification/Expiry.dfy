/** Expiry happens when an entry is touched. This module compares that with a store that
    sweeps everything overdue before each call: exactly when the two agree up to expiry, and
    exactly when a caller hears the same reply. */
module Expiry {
  import opened Wrappers
  import opened Text
  import opened Requests
  import opened StoreInvariants

  // ---------- Settling: expire everything overdue at time t ----------

  function SettleItems(s: Items, t: Time): Items {
    map id | id in s :: ExpireRequest(s[id], t)
  }

  predicate TokenOverdue(s: Installs, digest: string, t: Time)
    requires digest in s.tokens
  {
    s.tokens[digest] in s.sessions && SessionExpires(s.sessions[s.tokens[digest]], t)
  }

  function SettleInstalls(s: Installs, t: Time): Installs {
    Installs(map id | id in s.sessions :: ExpireSession(s.sessions[id], t),
             map d | d in s.tokens && !TokenOverdue(s, d, t) :: s.tokens[d])
  }

  function Settle(s: State, t: Time): State {
    State(SettleItems(s.items, t), SettleInstalls(s.installs, t))
  }

  /** Settling early changes nothing about settling later; with t1 == t2, it is idempotent. */
  lemma SettleComposes(s: State, t1: Time, t2: Time)
    requires t1 <= t2
    ensures Settle(Settle(s, t1), t2) == Settle(s, t2)
  {
    var a, b := SettleInstalls(SettleInstalls(s.installs, t1), t2), SettleInstalls(s.installs, t2);
    assert SettleItems(SettleItems(s.items, t1), t2) == SettleItems(s.items, t2);
    assert a.sessions == b.sessions;
    assert a.tokens == b.tokens;
  }

  /** Two states that are the same once everything overdue at t has expired. */
  ghost predicate Alike(a: State, b: State, t: Time) {
    Settle(a, t) == Settle(b, t)
  }

  lemma AlikeLater(a: State, b: State, t1: Time, t2: Time)
    requires Alike(a, b, t1) && t1 <= t2
    ensures Alike(a, b, t2)
  {
    SettleComposes(a, t1, t2);
    SettleComposes(b, t1, t2);
  }

  // ---------- Which calls do nothing but expire ----------

  predicate ReadsOnly(op: Op) {
    match op
    case OnRequest(o) => o.Get? || o.ListPending?
    case OnInstall(o) => o.GetSession?
  }

  /** The call leaves, apart from expiry, everything as it was: it failed, or only reads. */
  predicate Quiet(s: State, op: Op, now: Time) {
    ReadsOnly(op) || !Apply(s, op, now).reply.Success()
  }

  /** Every clock reading of the call lies between its start and its end. */
  predicate WellTimed(call: Call) {
    && call.now <= call.done
    && (call.op.OnRequest? && call.op.request.ListPending? ==>
        forall t :: t in call.op.request.readings.Values ==> call.now <= t <= call.done)
  }

  lemma QuietItems(s: Items, op: RequestOp, now: Time, done: Time)
    requires WellTimed(Call(OnRequest(op), now, done))
    requires op.Get? || op.ListPending? || !ApplyRequest(s, op, now).reply.Success()
    ensures SettleItems(ApplyRequest(s, op, now).items, done) == SettleItems(s, done)
  {
    var t := ApplyRequest(s, op, now).items;
    if op.ListPending? {
      forall id | id in s ensures ExpireRequest(t[id], done) == ExpireRequest(s[id], done) {
        if id in op.readings { assert op.readings[id] in op.readings.Values; }
      }
    }
  }

  lemma OverdueSettles(s: Installs, id: string, now: Time, done: Time)
    requires GoodInstalls(s) && now <= done && id in s.sessions && SessionExpires(s.sessions[id], now)
    ensures SettleInstalls(Overdue(s, id, now), done) == SettleInstalls(s, done)
  {
    hide GoodInstalls;
    var a, b := SettleInstalls(Overdue(s, id, now), done), SettleInstalls(s, done);
    SettleWriteSessions(s, id, ExpireSession(s.sessions[id], now), true, done);
    assert id in b.sessions && b.sessions[id] == ExpireSession(s.sessions[id], done);
    assert ExpireSession(s.sessions[id], done) == ExpireSession(ExpireSession(s.sessions[id], now), done);
    hide SettleInstalls, SessionExpires, ExpireSession;
    assert b.sessions[id := b.sessions[id]] == b.sessions;
    forall d ensures (d in a.tokens <==> d in b.tokens) && (d in a.tokens ==> a.tokens[d] == b.tokens[d]) {
      OverdueToken(s, id, now, done, d);
    }
    assert a.tokens == b.tokens;
  }

  lemma OverdueToken(s: Installs, id: string, now: Time, done: Time, d: string)
    requires GoodInstalls(s) && now <= done && id in s.sessions && SessionExpires(s.sessions[id], now)
    ensures var a, b := SettleInstalls(Overdue(s, id, now), done), SettleInstalls(s, done);
            (d in a.tokens <==> d in b.tokens) && (d in a.tokens ==> a.tokens[d] == b.tokens[d])
  {
    assert s.sessions[id].id == id;
    SweptWriteToken(s, id, ExpireSession(s.sessions[id], now), true, done, d);
    SweptToken(s, done, d);
  }

  lemma QuietInstalls(s: Installs, op: InstallOp, now: Time, done: Time)
    requires GoodInstalls(s) && now <= done
    requires op.GetSession? || !ApplyInstall(s, op, now).reply.Success()
    ensures SettleInstalls(ApplyInstall(s, op, now).installs, done) == SettleInstalls(s, done)
  {
    if ApplyInstall(s, op, now).installs != s {
      if op.Redeem? {
        assert GoodToken(s, op.digest);
        OverdueSettles(s, s.tokens[op.digest], now, done);
      } else if SessionExpires(s.sessions[op.id], now) {
        OverdueSettles(s, op.id, now, done);
      }
    }
  }

  /** A call that fails, or only reads, changes nothing that settling would not change. */
  lemma QuietSettles(s: State, call: Call)
    requires Integrity(s) && WellTimed(call) && Quiet(s, call.op, call.now)
    ensures Alike(Apply(s, call.op, call.now).state, s, call.done)
  {
    match call.op
    case OnRequest(o) => QuietItems(s.items, o, call.now, call.done);
    case OnInstall(o) => QuietInstalls(s.installs, o, call.now, call.done);
  }

  // ---------- Alike states answer alike ----------

  /** What a caller sees of a reply: the value of a success. Which error an overdue entry
      produces depends on whether it was touched before, so errors are not compared. */
  function View(r: Reply): Option<Reply> {
    if r.Success() then Some(r) else None
  }

  /** The overdue, not yet deleted tokens of session `id`, other than `digest`. */
  function Lapsed(s: Installs, id: string, digest: string, now: Time): set<string> {
    set d | d in s.tokens && d != digest && s.tokens[d] == id && TokenOverdue(s, d, now)
  }

  /** The tokens a call brings back: those of an overdue session whose id a mint draws again,
      if the mint returns before its own session expires. */
  function RevivedTokens(s: Installs, op: InstallOp, now: Time, done: Time): set<string> {
    if op.Mint? && ApplyInstall(s, op, now).reply.Success() && done <= now + op.input.ttl
    then Lapsed(s, op.id, op.digest, now) else {}
  }

  function Revived(s: State, call: Call): set<string> {
    if call.op.OnInstall? then RevivedTokens(s.installs, call.op.install, call.now, call.done) else {}
  }

  predicate Revives(s: State, call: Call) {
    Revived(s, call) != {}
  }

  lemma SettlePut(s: Items, id: string, r: ConnectionRequest, t: Time)
    ensures SettleItems(s[id := r], t) == SettleItems(s, t)[id := ExpireRequest(r, t)]
  {
  }

  /** Sweeping first does not change what a call on requests answers, or where it leads. */
  lemma RequestsCommute(s: Items, op: RequestOp, now: Time, done: Time)
    requires WellTimed(Call(OnRequest(op), now, done))
    ensures var p, q := ApplyRequest(s, op, now), ApplyRequest(SettleItems(s, now), op, now);
            View(p.reply) == View(q.reply) && SettleItems(p.items, done) == SettleItems(q.items, done)
  {
    var swept := SettleItems(s, now);
    var p, q := ApplyRequest(s, op, now), ApplyRequest(swept, op, now);
    SettleComposes(State(s, EMPTY.installs), now, done);
    if op.ListPending? {
      forall id | id in s ensures p.items[id] == q.items[id] {
        if id in op.readings { assert op.readings[id] in op.readings.Values; }
      }
      assert p.items == q.items;
    } else if op.Create? {
      CreateCommutes(s, op, now, done);
    } else if op.id in s {
      TouchCommutes(s, op, now, done);
    }
  }

  lemma CreateCommutes(s: Items, op: RequestOp, now: Time, done: Time)
    requires op.Create? && SettleItems(SettleItems(s, now), done) == SettleItems(s, done)
    ensures var p, q := ApplyRequest(s, op, now), ApplyRequest(SettleItems(s, now), op, now);
            View(p.reply) == View(q.reply) && SettleItems(p.items, done) == SettleItems(q.items, done)
  {
    var p := ApplyRequest(s, op, now);
    if p.reply.Success() {
      SettlePut(s, op.id, p.reply.request, done);
      SettlePut(SettleItems(s, now), op.id, p.reply.request, done);
    }
  }

  lemma TouchCommutes(s: Items, op: RequestOp, now: Time, done: Time)
    requires (op.Get? || op.Decide? || op.Report?) && op.id in s && now <= done
    requires SettleItems(SettleItems(s, now), done) == SettleItems(s, done)
    ensures var p, q := ApplyRequest(s, op, now), ApplyRequest(SettleItems(s, now), op, now);
            View(p.reply) == View(q.reply) && SettleItems(p.items, done) == SettleItems(q.items, done)
  {
    var p := ApplyRequest(s, op, now);
    assert SettleItems(s, now)[op.id] == ExpireRequest(s[op.id], now);
    if p.reply.Success() {
      SettlePut(s, op.id, p.reply.request, done);
      SettlePut(SettleItems(s, now), op.id, p.reply.request, done);
    } else {
      QuietItems(s, op, now, done);
      QuietItems(SettleItems(s, now), op, now, done);
    }
  }

  lemma SweptToken(s: Installs, now: Time, d: string)
    requires GoodInstalls(s)
    ensures d in SettleInstalls(s, now).tokens <==> d in s.tokens && !TokenOverdue(s, d, now)
    ensures d in SettleInstalls(s, now).tokens ==>
              SettleInstalls(s, now).tokens[d] == s.tokens[d] && s.tokens[d] in SettleInstalls(s, now).sessions
              && SettleInstalls(s, now).sessions[s.tokens[d]] == s.sessions[s.tokens[d]]
  {
    if d in s.tokens { assert GoodToken(s, d); }
  }

  lemma SweptWriteToken(s: Installs, id: string, x: InstallSession, drop: bool, t: Time, d: string)
    requires id in s.sessions
    ensures d in SettleInstalls(Write(s, id, x, drop), t).tokens <==>
              && d in s.tokens
              && (drop ==> s.tokens[d] != s.sessions[id].id)
              && !(if s.tokens[d] == id then SessionExpires(x, t) else TokenOverdue(s, d, t))
    ensures d in SettleInstalls(Write(s, id, x, drop), t).tokens ==>
              SettleInstalls(Write(s, id, x, drop), t).tokens[d] == s.tokens[d]
  {
  }

  lemma SettleWriteSessions(s: Installs, id: string, x: InstallSession, drop: bool, t: Time)
    requires id in s.sessions
    ensures SettleInstalls(Write(s, id, x, drop), t).sessions == SettleInstalls(s, t).sessions[id := ExpireSession(x, t)]
  {
  }

  lemma WriteTokenCommutes(s: Installs, id: string, x: InstallSession, drop: bool, now: Time, done: Time, d: string)
    requires GoodInstalls(s) && now <= done && id in s.sessions && !SessionExpires(s.sessions[id], now)
    ensures var p := SettleInstalls(Write(s, id, x, drop), done).tokens;
            var q := SettleInstalls(Write(SettleInstalls(s, now), id, x, drop), done).tokens;
            (d in p <==> d in q) && (d in p ==> p[d] == q[d])
  {
    SweptToken(s, now, d);
    SweptWriteToken(s, id, x, drop, done, d);
    SweptWriteToken(SettleInstalls(s, now), id, x, drop, done, d);
  }

  lemma WriteTokensCommute(s: Installs, id: string, x: InstallSession, drop: bool, now: Time, done: Time)
    requires GoodInstalls(s) && now <= done && id in s.sessions && !SessionExpires(s.sessions[id], now)
    ensures SettleInstalls(Write(s, id, x, drop), done).tokens
         == SettleInstalls(Write(SettleInstalls(s, now), id, x, drop), done).tokens
  {
    var p := SettleInstalls(Write(s, id, x, drop), done).tokens;
    var q := SettleInstalls(Write(SettleInstalls(s, now), id, x, drop), done).tokens;
    forall d ensures (d in p <==> d in q) && (d in p ==> p[d] == q[d]) {
      WriteTokenCommutes(s, id, x, drop, now, done, d);
    }
  }

  /** Writing a session that is not overdue commutes with sweeping. */
  lemma WriteCommutes(s: Installs, id: string, x: InstallSession, drop: bool, now: Time, done: Time)
    requires GoodInstalls(s) && now <= done && id in s.sessions && !SessionExpires(s.sessions[id], now)
    ensures SettleInstalls(Write(s, id, x, drop), done) == SettleInstalls(Write(SettleInstalls(s, now), id, x, drop), done)
  {
    SettleComposes(State(map[], s), now, done);
    SettleWriteSessions(s, id, x, drop, done);
    SettleWriteSessions(SettleInstalls(s, now), id, x, drop, done);
    WriteTokensCommute(s, id, x, drop, now, done);
  }

  /** Adding a session with its token: what Mint stores. */
  function Add(s: Installs, id: string, x: InstallSession, digest: string): Installs {
    Installs(s.sessions[id := x], s.tokens[digest := id])
  }

  lemma SweptAddToken(s: Installs, id: string, x: InstallSession, digest: string, t: Time, d: string)
    ensures d in SettleInstalls(Add(s, id, x, digest), t).tokens <==>
              if d == digest then !SessionExpires(x, t)
              else d in s.tokens && !(if s.tokens[d] == id then SessionExpires(x, t) else TokenOverdue(s, d, t))
    ensures d in SettleInstalls(Add(s, id, x, digest), t).tokens ==>
              SettleInstalls(Add(s, id, x, digest), t).tokens[d] == if d == digest then id else s.tokens[d]
  {
  }

  lemma SettleAddSessions(s: Installs, id: string, x: InstallSession, digest: string, t: Time)
    ensures SettleInstalls(Add(s, id, x, digest), t).sessions == SettleInstalls(s, t).sessions[id := ExpireSession(x, t)]
  {
  }

  /** Whether a token is live once a session was added: told from the swept state and the
      lapsed tokens alone. */
  lemma AddedToken(s: Installs, id: string, x: InstallSession, digest: string, now: Time, done: Time, d: string)
    requires GoodInstalls(s) && now <= done && !SessionExpires(x, now)
    ensures var t := SettleInstalls(Add(s, id, x, digest), done).tokens;
            var swept := SettleInstalls(s, now);
            && (d in t <==>
                  if d == digest || d in Lapsed(s, id, digest, now) then !SessionExpires(x, done)
                  else d in swept.tokens && (if swept.tokens[d] == id then !SessionExpires(x, done)
                                             else !TokenOverdue(swept, d, done)))
            && (d in t ==> t[d] == if d == digest || d in Lapsed(s, id, digest, now) then id else swept.tokens[d])
  {
    SweptToken(s, now, d);
    SweptAddToken(s, id, x, digest, done, d);
  }

  /** Adding a session to states that agree up to expiry keeps them so if the same tokens
      have lapsed in both. */
  lemma AddAlike(a: Installs, b: Installs, id: string, x: InstallSession, digest: string, now: Time, done: Time)
    requires GoodInstalls(a) && GoodInstalls(b) && now <= done && x.status == Requested && !SessionExpires(x, now)
    requires SettleInstalls(a, now) == SettleInstalls(b, now)
    requires done <= x.expiresAt ==> Lapsed(a, id, digest, now) == Lapsed(b, id, digest, now)
    ensures SettleInstalls(Add(a, id, x, digest), done) == SettleInstalls(Add(b, id, x, digest), done)
  {
    hide GoodInstalls;
    var p, q := SettleInstalls(Add(a, id, x, digest), done), SettleInstalls(Add(b, id, x, digest), done);
    AlikeLater(State(map[], a), State(map[], b), now, done);
    assert SessionExpires(x, done) <==> done > x.expiresAt;
    SettleAddSessions(a, id, x, digest, done);
    SettleAddSessions(b, id, x, digest, done);
    hide SettleInstalls, Lapsed, SessionExpires;
    forall d ensures (d in p.tokens <==> d in q.tokens) && (d in p.tokens ==> p.tokens[d] == q.tokens[d]) {
      AddedToken(a, id, x, digest, now, done, d);
      AddedToken(b, id, x, digest, now, done, d);
      LapsedSwept(a, id, digest, now, d);
      LapsedSwept(b, id, digest, now, d);
    }
    assert p.tokens == q.tokens;
  }

  lemma LapsedSwept(s: Installs, id: string, digest: string, now: Time, d: string)
    ensures d in Lapsed(s, id, digest, now) ==> d !in SettleInstalls(s, now).tokens
    ensures d in s.tokens && s.tokens[d] == id && d != digest ==>
              d in Lapsed(s, id, digest, now) || (d in SettleInstalls(s, now).tokens && SettleInstalls(s, now).tokens[d] == id)
  {
  }

  lemma MintAdds(s: Installs, op: InstallOp, now: Time, done: Time)
    requires op.Mint? && ApplyInstall(s, op, now).reply.Success()
    ensures var r := ApplyInstall(s, op, now);
            && r.reply.SessionReply? && r.reply.session.status == Requested
            && r.reply.session.expiresAt == now + op.input.ttl > now && !SessionExpires(r.reply.session, now)
            && r.installs == Add(s, op.id, r.reply.session, op.digest)
            && (done <= now + op.input.ttl ==> RevivedTokens(s, op, now, done) == Lapsed(s, op.id, op.digest, now))
  {
  }

  lemma MintFails(s: Installs, op: InstallOp, now: Time, done: Time)
    requires op.Mint? && !ApplyInstall(s, op, now).reply.Success()
    ensures ApplyInstall(s, op, now).installs == s && RevivedTokens(s, op, now, done) == {}
  {
  }

  /** A mint from states that agree up to expiry leads to such states again if it revives the
      same tokens in both. */
  lemma MintAlike(a: Installs, b: Installs, op: InstallOp, now: Time, done: Time)
    requires GoodInstalls(a) && GoodInstalls(b) && now <= done && op.Mint?
    requires SettleInstalls(a, now) == SettleInstalls(b, now)
    requires RevivedTokens(a, op, now, done) == RevivedTokens(b, op, now, done)
    ensures SettleInstalls(ApplyInstall(a, op, now).installs, done) == SettleInstalls(ApplyInstall(b, op, now).installs, done)
  {
    hide SettleInstalls, GoodInstalls, RevivedTokens, ApplyInstall;
    InstallViewsCommute(a, op, now);
    InstallViewsCommute(b, op, now);
    if ApplyInstall(a, op, now).reply.Success() {
      MintAdds(a, op, now, done);
      MintAdds(b, op, now, done);
      AddAlike(a, b, op.id, ApplyInstall(a, op, now).reply.session, op.digest, now, done);
    } else {
      MintFails(a, op, now, done);
      MintFails(b, op, now, done);
      AlikeLater(State(map[], a), State(map[], b), now, done) by { SettleOnly(a, now); SettleOnly(b, now); }
      SettleOnly(a, done);
      SettleOnly(b, done);
    }
  }

  lemma SettleOnly(s: Installs, t: Time)
    ensures Settle(State(map[], s), t) == State(map[], SettleInstalls(s, t))
  {
  }

  lemma InstallViewsCommute(s: Installs, op: InstallOp, now: Time)
    requires GoodInstalls(s)
    ensures View(ApplyInstall(s, op, now).reply) == View(ApplyInstall(SettleInstalls(s, now), op, now).reply)
  {
    hide TrimSpace, DropTokens;
    if op.Redeem? {
      SweptToken(s, now, op.digest);
    } else if !op.Mint? {
      if op.id in s.sessions {
        assert SettleInstalls(s, now).sessions[op.id] == ExpireSession(s.sessions[op.id], now);
      }
      hide SettleInstalls, GoodInstalls;
    }
  }

  /** A successful call that does more than read writes one session that was not overdue,
      and what it writes is in its reply. */
  lemma SuccessWrites(s: Installs, op: InstallOp, now: Time) returns (id: string, drop: bool)
    requires GoodInstalls(s) && !op.Mint? && !op.GetSession? && ApplyInstall(s, op, now).reply.Success()
    ensures id in s.sessions && !SessionExpires(s.sessions[id], now) && ApplyInstall(s, op, now).reply.SessionReply?
    ensures ApplyInstall(s, op, now).installs == Write(s, id, ApplyInstall(s, op, now).reply.session, drop)
    ensures id == ApplyInstall(s, op, now).reply.session.id
    ensures if op.Redeem? then op.digest in s.tokens && s.tokens[op.digest] == id else op.id == id
    ensures drop <==> op.Redeem? || op.InstallReport? || (op.Approve? && !op.approved)
  {
    id := if op.Redeem? then s.tokens[op.digest] else op.id;
    drop := op.Redeem? || op.InstallReport? || (op.Approve? && !op.approved);
  }

  /** Sweeping first does not change where a call on an existing session leads. */
  lemma InstallsCommute(s: Installs, op: InstallOp, now: Time, done: Time)
    requires GoodInstalls(s) && now <= done && !op.Mint?
    ensures SettleInstalls(ApplyInstall(s, op, now).installs, done)
         == SettleInstalls(ApplyInstall(SettleInstalls(s, now), op, now).installs, done)
  {
    hide ApplyInstall, SettleInstalls;
    var swept := SettleInstalls(s, now);
    SettleKeepsIntegrity(State(map[], s), now);
    InstallViewsCommute(s, op, now);
    if op.GetSession? || !ApplyInstall(s, op, now).reply.Success() {
      SettleComposes(State(map[], s), now, done);
      QuietInstalls(s, op, now, done);
      QuietInstalls(swept, op, now, done);
    } else {
      var id, drop := SuccessWrites(s, op, now);
      var id', drop' := SuccessWrites(swept, op, now);
      WriteCommutes(s, id, ApplyInstall(s, op, now).reply.session, drop, now, done);
    }
  }

  /** States that agree up to expiry give the same success values and agree again, if the call
      revives the same tokens in both. */
  lemma AlikeStep(a: State, b: State, call: Call)
    requires Integrity(a) && Integrity(b) && WellTimed(call) && Alike(a, b, call.now)
    requires Revived(a, call) == Revived(b, call)
    ensures View(Apply(a, call.op, call.now).reply) == View(Apply(b, call.op, call.now).reply)
    ensures Alike(Apply(a, call.op, call.now).state, Apply(b, call.op, call.now).state, call.done)
  {
    hide ApplyInstall, ApplyRequest, SettleInstalls, SettleItems, GoodItems, GoodInstalls;
    AlikeLater(a, b, call.now, call.done);
    match call.op
    case OnRequest(o) =>
      RequestsCommute(a.items, o, call.now, call.done);
      RequestsCommute(b.items, o, call.now, call.done);
    case OnInstall(o) =>
      InstallViewsCommute(a.installs, o, call.now);
      InstallViewsCommute(b.installs, o, call.now);
      if o.Mint? {
        MintAlike(a.installs, b.installs, o, call.now, call.done);
      } else {
        InstallsCommute(a.installs, o, call.now, call.done);
        InstallsCommute(b.installs, o, call.now, call.done);
      }
  }

  // ---------- Lazy expiry refines eager expiry ----------

  /** The reference store: sweep everything overdue, then make the call. */
  function Eager(s: State, calls: seq<Call>, n: nat): State
    requires n <= |calls|
    decreases n, 0
  {
    if n == 0 then s else EagerStep(s, calls, n - 1).state
  }

  function EagerStep(s: State, calls: seq<Call>, n: nat): Outcome
    requires n < |calls|
    decreases n, 1
  {
    Apply(Settle(Eager(s, calls, n), calls[n].now), calls[n].op, calls[n].now)
  }

  /** The clock never runs backwards, within a call or from one call to the next. */
  ghost predicate ForwardClock(calls: seq<Call>) {
    && (forall i :: 0 <= i < |calls| ==> WellTimed(calls[i]))
    && (forall i, j :: 0 <= i < j < |calls| ==> calls[i].done <= calls[j].now)
  }

  /** Session ids drawn by the calls are new and distinct. */
  ghost predicate FreshSessions(s: State, calls: seq<Call>) {
    && (forall i :: 0 <= i < |calls| && Mints(calls[i]) ==> calls[i].op.install.id !in s.installs.sessions)
    && (forall i, j :: 0 <= i < j < |calls| && Mints(calls[i]) && Mints(calls[j]) ==>
          calls[i].op.install.id != calls[j].op.install.id)
  }

  predicate Mints(call: Call) {
    call.op.OnInstall? && call.op.install.Mint? && Mintable(call.op.install.input)
  }

  lemma SettleKeepsIntegrity(s: State, t: Time)
    requires Integrity(s)
    ensures Integrity(Settle(s, t))
  {
    forall d | d in Settle(s, t).installs.tokens ensures GoodToken(Settle(s, t).installs, d) {
      assert GoodToken(s.installs, d);
    }
  }

  lemma NewSessionsAreMinted(s: Installs, op: InstallOp, now: Time, id: string)
    requires id in ApplyInstall(s, op, now).installs.sessions && id !in s.sessions
    ensures op.Mint? && op.id == id && Mintable(op.input)
  {
  }

  lemma {:induction false} MintedIdsAreNew(s: State, calls: seq<Call>, n: nat, k: nat)
    requires n <= k < |calls| && FreshSessions(s, calls) && Mints(calls[k])
    ensures calls[k].op.install.id !in After(s, calls, n).installs.sessions
  {
    if n > 0 {
      MintedIdsAreNew(s, calls, n - 1, k);
      var before, call, id := After(s, calls, n - 1), calls[n - 1], calls[k].op.install.id;
      assert After(s, calls, n) == Apply(before, call.op, call.now).state;
      if call.op.OnInstall? && id in After(s, calls, n).installs.sessions {
        NewSessionsAreMinted(before.installs, call.op.install, call.now, id);
      }
    }
  }

  lemma AlikeSessions(a: State, b: State, t: Time)
    requires Alike(a, b, t)
    ensures a.installs.sessions.Keys == b.installs.sessions.Keys
  {
    assert Settle(a, t).installs.sessions.Keys == a.installs.sessions.Keys;
    assert Settle(b, t).installs.sessions.Keys == b.installs.sessions.Keys;
  }

  lemma UnusedIdRevivesNothing(s: State, call: Call)
    requires Integrity(s)
    requires Mints(call) ==> call.op.install.id !in s.installs.sessions
    ensures !Revives(s, call)
  {
  }

  /** A swept store has no lapsed token to bring back. */
  lemma SweptRevivesNothing(s: State, call: Call)
    requires Integrity(s)
    ensures !Revives(Settle(s, call.now), call)
  {
    if Mints(call) {
      hide ApplyInstall;
      var swept := SettleInstalls(s.installs, call.now);
      forall d | d in swept.tokens ensures !TokenOverdue(swept, d, call.now) {
        SweptToken(s.installs, call.now, d);
      }
    }
  }

  /** None of the first `n` calls revives a token. */
  ghost predicate NoRevival(s: State, calls: seq<Call>, n: nat)
    requires n <= |calls|
  {
    forall i :: 0 <= i < n ==> !Revives(After(s, calls, i), calls[i])
  }

  lemma {:induction false} EagerIntegrity(s: State, calls: seq<Call>, n: nat)
    requires Integrity(s) && n <= |calls|
    ensures Integrity(Eager(s, calls, n))
  {
    if n > 0 {
      EagerIntegrity(s, calls, n - 1);
      SettleKeepsIntegrity(Eager(s, calls, n - 1), calls[n - 1].now);
      IntegrityKept(Settle(Eager(s, calls, n - 1), calls[n - 1].now), calls[n - 1].op, calls[n - 1].now);
    }
  }

  /** For every sequence of timed calls under a forward clock, as long as no mint revives a
      token, the store and the sweeping reference reach alike states ... */
  lemma {:induction false} LazyRefinesEager(s: State, calls: seq<Call>, n: nat, t: Time)
    requires Integrity(s) && ForwardClock(calls) && n <= |calls| && NoRevival(s, calls, n)
    requires n > 0 ==> calls[n - 1].done <= t
    ensures Alike(After(s, calls, n), Eager(s, calls, n), t)
    decreases n, 0
  {
    hide Settle, Apply, Integrity, ForwardClock, Revives;
    if n > 0 {
      LazyMatchesEagerReply(s, calls, n - 1);
      AlikeLater(After(s, calls, n), Eager(s, calls, n), calls[n - 1].done, t);
    }
  }

  /** ... and call number `n` succeeds in both or in neither, with the same value. */
  lemma {:induction false} LazyMatchesEagerReply(s: State, calls: seq<Call>, n: nat)
    requires Integrity(s) && ForwardClock(calls) && n < |calls| && NoRevival(s, calls, n + 1)
    ensures View(Step(s, calls, n).reply) == View(EagerStep(s, calls, n).reply)
    ensures Alike(After(s, calls, n + 1), Eager(s, calls, n + 1), calls[n].done)
    decreases n, 2
  {
    hide Apply, Integrity, Settle, Revived;
    LazyMeetsSwept(s, calls, n);
    SweptRevivesNothing(Eager(s, calls, n), calls[n]);
    AlikeStep(After(s, calls, n), Settle(Eager(s, calls, n), calls[n].now), calls[n]);
  }

  /** What call number `n` finds in the two stores. */
  lemma {:induction false} LazyMeetsSwept(s: State, calls: seq<Call>, n: nat)
    requires Integrity(s) && ForwardClock(calls) && n < |calls| && NoRevival(s, calls, n)
    ensures var lazy, swept := After(s, calls, n), Settle(Eager(s, calls, n), calls[n].now);
            Integrity(lazy) && Integrity(swept) && Alike(lazy, swept, calls[n].now)
    ensures Integrity(Eager(s, calls, n))
    decreases n, 1
  {
    hide Apply, Integrity, Settle, Revives;
    LazyRefinesEager(s, calls, n, calls[n].now);
    SettleComposes(Eager(s, calls, n), calls[n].now, calls[n].now);
    IntegrityAlways(s, calls, n);
    EagerIntegrity(s, calls, n);
    SettleKeepsIntegrity(Eager(s, calls, n), calls[n].now);
  }

  /** Fresh session ids revive nothing, so the two stores agree in every such run. */
  lemma FreshIdsRefineEager(s: State, calls: seq<Call>, n: nat)
    requires Integrity(s) && ForwardClock(calls) && FreshSessions(s, calls) && n < |calls|
    ensures View(Step(s, calls, n).reply) == View(EagerStep(s, calls, n).reply)
    ensures Alike(After(s, calls, n + 1), Eager(s, calls, n + 1), calls[n].done)
  {
    hide Apply, Integrity, Settle, FreshSessions, ForwardClock, Revives;
    forall i | 0 <= i < n + 1 ensures !Revives(After(s, calls, i), calls[i]) {
      IntegrityAlways(s, calls, i);
      if Mints(calls[i]) { MintedIdsAreNew(s, calls, i, i); }
      UnusedIdRevivesNothing(After(s, calls, i), calls[i]);
    }
    LazyMatchesEagerReply(s, calls, n);
  }

  // ---------- Exactly when an id collision breaks it ----------

  /** A mint keeps two states alike if and only if it revives the same tokens in both. */
  lemma MintAgreesIff(a: Installs, b: Installs, op: InstallOp, now: Time, done: Time)
    requires GoodInstalls(a) && GoodInstalls(b) && op.Mint? && now <= done
    requires SettleInstalls(a, now) == SettleInstalls(b, now)
    ensures SettleInstalls(ApplyInstall(a, op, now).installs, done) == SettleInstalls(ApplyInstall(b, op, now).installs, done)
            <==> RevivedTokens(a, op, now, done) == RevivedTokens(b, op, now, done)
  {
    hide SettleInstalls, GoodInstalls, RevivedTokens, ApplyInstall;
    if RevivedTokens(a, op, now, done) == RevivedTokens(b, op, now, done) {
      MintAlike(a, b, op, now, done);
    } else if SettleInstalls(ApplyInstall(a, op, now).installs, done) == SettleInstalls(ApplyInstall(b, op, now).installs, done) {
      forall d ensures d in RevivedTokens(a, op, now, done) <==> d in RevivedTokens(b, op, now, done) {
        RevivedIsLive(a, b, op, now, done, d);
        RevivedIsLive(b, a, op, now, done, d);
      }
      assert false;
    }
  }

  lemma RevivedIsLive(a: Installs, b: Installs, op: InstallOp, now: Time, done: Time, d: string)
    requires GoodInstalls(a) && GoodInstalls(b) && op.Mint? && now <= done
    requires SettleInstalls(a, now) == SettleInstalls(b, now)
    requires SettleInstalls(ApplyInstall(a, op, now).installs, done) == SettleInstalls(ApplyInstall(b, op, now).installs, done)
    ensures d in RevivedTokens(a, op, now, done) ==> d in RevivedTokens(b, op, now, done)
  {
    hide ApplyInstall, GoodInstalls;
    if d in RevivedTokens(a, op, now, done) {
      InstallViewsCommute(a, op, now);
      InstallViewsCommute(b, op, now);
      MintAdds(a, op, now, done);
      MintAdds(b, op, now, done);
      var x := ApplyInstall(a, op, now).reply.session;
      hide SettleInstalls, SessionExpires;
      assert !SessionExpires(x, done) by { NotYet(x, done); }
      AddedToken(a, op.id, x, op.digest, now, done, d);
      AddedToken(b, op.id, x, op.digest, now, done, d);
      SweptToken(a, now, d);
      SweptToken(b, now, d);
    }
  }

  lemma NotYet(x: InstallSession, done: Time)
    requires done <= x.expiresAt
    ensures !SessionExpires(x, done)
  {
  }

  /** After each of the first `n` calls the two stores are alike. */
  ghost predicate AgreeThroughout(s: State, calls: seq<Call>, n: nat)
    requires n <= |calls|
  {
    forall i :: 0 <= i < n ==> Alike(After(s, calls, i + 1), Eager(s, calls, i + 1), calls[i].done)
  }

  /** Whole runs, with any ids: lazy and eager expiry agree after every call if and only if no
      mint revives a token. */
  lemma {:induction false} LazyAgreesIff(s: State, calls: seq<Call>, n: nat)
    requires Integrity(s) && ForwardClock(calls) && n <= |calls|
    ensures AgreeThroughout(s, calls, n) <==> NoRevival(s, calls, n)
  {
    hide Integrity, Alike, Revives, ForwardClock;
    if n > 0 {
      LazyAgreesIff(s, calls, n - 1);
      assert AgreeThroughout(s, calls, n)
        == (AgreeThroughout(s, calls, n - 1) && Alike(After(s, calls, n), Eager(s, calls, n), calls[n - 1].done));
      assert NoRevival(s, calls, n)
        == (NoRevival(s, calls, n - 1) && !Revives(After(s, calls, n - 1), calls[n - 1]));
      if NoRevival(s, calls, n) {
        LazyMatchesEagerReply(s, calls, n - 1);
      } else if NoRevival(s, calls, n - 1) {
        RevivalParts(s, calls, n - 1);
      }
    }
  }

  lemma RevivalParts(s: State, calls: seq<Call>, n: nat)
    requires Integrity(s) && ForwardClock(calls) && n < |calls| && NoRevival(s, calls, n)
    requires Revives(After(s, calls, n), calls[n])
    ensures !Alike(After(s, calls, n + 1), Eager(s, calls, n + 1), calls[n].done)
  {
    var lazy, swept, call := After(s, calls, n), Settle(Eager(s, calls, n), calls[n].now), calls[n];
    LazyMeetsSwept(s, calls, n);
    SweptRevivesNothing(Eager(s, calls, n), call);
    assert Mints(call);
    hide ApplyInstall, SettleInstalls, GoodInstalls, GoodItems, RevivedTokens;
    MintAgreesIff(lazy.installs, swept.installs, call.op.install, call.now, call.done);
  }

  // ---------- Which errors ----------

  /** Does this call find its session overdue? A call refused for its input does not look, and
      reading a session reports nothing. */
  predicate FindsOverdue(s: State, op: Op, now: Time) {
    op.OnInstall? &&
      match op.install
      case Mint(_, _, _) => false
      case GetSession(_) => false
      case Identify(id, connector, device) => !Blank(connector) && !Blank(device) && IsOverdue(s.installs, id, now)
      case Approve(id, _) => IsOverdue(s.installs, id, now)
      case InstallReport(id, _, _) => IsOverdue(s.installs, id, now)
      case Redeem(digest) => digest in s.installs.tokens && IsOverdue(s.installs, s.installs.tokens[digest], now)
  }

  predicate IsOverdue(s: Installs, id: string, now: Time) {
    id in s.sessions && SessionExpires(s.sessions[id], now)
  }

  /** Calls on requests give the same reply, error codes included, swept or not. */
  lemma SameRequestReply(s: Items, op: RequestOp, now: Time, done: Time)
    requires WellTimed(Call(OnRequest(op), now, done))
    ensures ApplyRequest(s, op, now).reply == ApplyRequest(SettleItems(s, now), op, now).reply
  {
    RequestsCommute(s, op, now, done);
    if op.Get? || op.Decide? || op.Report? {
      assert op.id in s ==> SettleItems(s, now)[op.id] == ExpireRequest(s[op.id], now);
    }
  }

  /** A session found overdue is the first to hear of it: the sweeping store knows only a failed
      session, or no token at all. */
  lemma OverdueReplies(s: Installs, op: InstallOp, now: Time)
    requires GoodInstalls(s) && FindsOverdue(State(map[], s), OnInstall(op), now)
    ensures ApplyInstall(s, op, now).reply.ExpiredSession?
    ensures var r := ApplyInstall(SettleInstalls(s, now), op, now).reply;
            r == Failure(if op.Redeem? then NotFound else InvalidTransition)
  {
    hide DropTokens, TrimSpace;
    if op.Redeem? {
      SweptToken(s, now, op.digest);
    } else {
      assert SettleInstalls(s, now).sessions[op.id] == ExpireSession(s.sessions[op.id], now);
    }
  }

  lemma SameInstallReply(s: Installs, op: InstallOp, now: Time)
    requires GoodInstalls(s) && !FindsOverdue(State(map[], s), OnInstall(op), now)
    ensures ApplyInstall(s, op, now).reply == ApplyInstall(SettleInstalls(s, now), op, now).reply
    ensures !ApplyInstall(s, op, now).reply.ExpiredSession?
  {
    hide DropTokens, TrimSpace;
    if op.Redeem? {
      SweptToken(s, now, op.digest);
      if op.digest in s.tokens { assert GoodToken(s, op.digest); }
    } else if !op.Mint? {
      if op.id in s.sessions {
        assert SettleInstalls(s, now).sessions[op.id] == ExpireSession(s.sessions[op.id], now);
      }
      hide SettleInstalls, GoodInstalls;
    }
  }

  /** One call: sweeping first changes the reply if and only if the call finds its session
      overdue, and then it changes the error. */
  lemma SweptReplyIff(s: State, call: Call)
    requires Integrity(s) && WellTimed(call)
    ensures var r := Apply(s, call.op, call.now).reply;
            var q := Apply(Settle(s, call.now), call.op, call.now).reply;
            if FindsOverdue(s, call.op, call.now) then r.ExpiredSession? && q.Failure? && q.error != RequestExpired
            else r == q && !r.ExpiredSession?
  {
    hide ApplyInstall, ApplyRequest, SettleInstalls, SettleItems, GoodInstalls, GoodItems;
    match call.op
    case OnRequest(o) =>
      SameRequestReply(s.items, o, call.now, call.done);
      NotASession(s.items, o, call.now);
    case OnInstall(o) =>
      assert FindsOverdue(s, call.op, call.now) == FindsOverdue(State(map[], s.installs), call.op, call.now);
      if FindsOverdue(s, call.op, call.now) {
        OverdueReplies(s.installs, o, call.now);
      } else {
        SameInstallReply(s.installs, o, call.now);
      }
  }

  lemma NotASession(s: Items, op: RequestOp, now: Time)
    ensures !ApplyRequest(s, op, now).reply.ExpiredSession?
  {
  }

  /** Whole runs, error codes included: as long as no mint revived a token before it, a call
      gets the same reply from both stores if and only if it does not find its session
      overdue. */
  lemma SameReplyIff(s: State, calls: seq<Call>, n: nat)
    requires Integrity(s) && ForwardClock(calls) && n < |calls| && NoRevival(s, calls, n)
    ensures Step(s, calls, n).reply == EagerStep(s, calls, n).reply
            <==> !FindsOverdue(After(s, calls, n), calls[n].op, calls[n].now)
  {
    hide After, Eager, Apply, Settle, Integrity, FindsOverdue;
    LazyMeetsSwept(s, calls, n);
    IntegrityAlways(s, calls, n);
    LazyRefinesEager(s, calls, n, calls[n].now);
    SweptReplyIff(After(s, calls, n), calls[n]);
  }

  /** Minted, and approved too late, twice. */
  const TOO_LATE := [
    Call(OnInstall(Mint(ASKED, "s", "token")), 0, 0),
    Call(OnInstall(Approve("s", true)), 20, 20),
    Call(OnInstall(Approve("s", true)), 21, 21)]

  /** The first call to touch the session is told that it expired, the second that it cannot
      be approved; from the sweeping store both hear the latter. */
  lemma ErrorDependsOnTouch()
    ensures ForwardClock(TOO_LATE)
    ensures Step(EMPTY, TOO_LATE, 1).reply == ExpiredSession(FIRST.(status := InstallFailed, reason := "Expired"))
    ensures Step(EMPTY, TOO_LATE, 2).reply == Failure(InvalidTransition)
    ensures EagerStep(EMPTY, TOO_LATE, 1).reply == Failure(InvalidTransition)
  {
    assert Step(EMPTY, TOO_LATE, 0).state == State(map[], Installs(map["s" := FIRST], map["token" := "s"]));
    assert Settle(EMPTY, 0) == EMPTY;
    assert EagerStep(EMPTY, TOO_LATE, 0).state == State(map[], Installs(map["s" := FIRST], map["token" := "s"]));
  }

  // ---------- A run in which it breaks ----------

  const ASKED := CreateInput("u", "", "", "", 10)

  /** One session id drawn twice, the first session already overdue at the second mint. */
  const REUSE := [
    Call(OnInstall(Mint(ASKED, "s", "old")), 0, 0),
    Call(OnInstall(Mint(ASKED, "s", "new")), 20, 20),
    Call(OnInstall(Approve("s", true)), 21, 21),
    Call(OnInstall(Redeem("old")), 22, 22)]

  const FIRST := InstallSession("s", "u", "", "", "", Requested, 0, 10, "")
  const SECOND := InstallSession("s", "u", "", "", "", Requested, 20, 30, "")
  const APPROVED := SECOND.(status := InstallApproved)

  /** The overdue session's token redeems the new session; the sweeping store refuses it. */
  lemma OldTokenRedeems()
    ensures ForwardClock(REUSE) && !NoRevival(EMPTY, REUSE, 4)
    ensures Step(EMPTY, REUSE, 3).reply == SessionReply(APPROVED)
    ensures EagerStep(EMPTY, REUSE, 3).reply == Failure(NotFound)
  {
    hide After, Eager, Apply;
    ReuseLazily();
    EagerFourth();
    assert "old" in Lapsed(Installs(map["s" := FIRST], map["old" := "s"]), "s", "new", 20);
    assert Revives(After(EMPTY, REUSE, 1), REUSE[1]);
  }

  const ONE := State(map[], Installs(map["s" := FIRST], map["old" := "s"]))
  const TWO := State(map[], Installs(map["s" := SECOND], map["old" := "s", "new" := "s"]))
  const THREE := State(map[], Installs(map["s" := APPROVED], map["old" := "s", "new" := "s"]))

  lemma ReuseLazily()
    ensures After(EMPTY, REUSE, 1) == ONE
    ensures Apply(ONE, REUSE[1].op, 20) == Outcome(TWO, SessionReply(SECOND))
    ensures Apply(TWO, REUSE[2].op, 21) == Outcome(THREE, SessionReply(APPROVED))
    ensures Apply(THREE, REUSE[3].op, 22).reply == SessionReply(APPROVED)
    ensures Step(EMPTY, REUSE, 3).reply == SessionReply(APPROVED)
  {
    hide DropTokens;
    assert Step(EMPTY, REUSE, 0).state == ONE;
    assert Step(EMPTY, REUSE, 1).state == TWO;
    assert Step(EMPTY, REUSE, 2).state == THREE;
  }

  lemma EagerFirst()
    ensures Eager(EMPTY, REUSE, 1) == State(map[], Installs(map["s" := FIRST], map["old" := "s"]))
  {
    assert Settle(EMPTY, 0) == EMPTY;
    assert Eager(EMPTY, REUSE, 0) == EMPTY;
    assert Eager(EMPTY, REUSE, 1) == EagerStep(EMPTY, REUSE, 0).state;
  }

  lemma EagerSecond()
    ensures Eager(EMPTY, REUSE, 2) == State(map[], Installs(map["s" := SECOND], map["new" := "s"]))
  {
    EagerFirst();
    hide Eager;
    var swept := Settle(Eager(EMPTY, REUSE, 1), 20);
    assert swept.installs.tokens == map[];
    assert Eager(EMPTY, REUSE, 2) == EagerStep(EMPTY, REUSE, 1).state by { EagerIs(1); }
    assert swept.installs.sessions["s" := SECOND] == map["s" := SECOND];
    assert swept.items == map[];
  }

  lemma EagerThird()
    ensures Eager(EMPTY, REUSE, 3) == State(map[], Installs(map["s" := APPROVED], map["new" := "s"]))
  {
    EagerSecond();
    hide Eager;
    assert Settle(Eager(EMPTY, REUSE, 2), 21) == Eager(EMPTY, REUSE, 2);
    assert Eager(EMPTY, REUSE, 3) == EagerStep(EMPTY, REUSE, 2).state by { EagerIs(2); }
    assert Eager(EMPTY, REUSE, 3).installs.sessions == map["s" := APPROVED];
  }

  lemma EagerFourth()
    ensures EagerStep(EMPTY, REUSE, 3).reply == Failure(NotFound)
  {
    EagerThird();
    hide Eager;
    assert "old" !in Settle(Eager(EMPTY, REUSE, 3), 22).installs.tokens;
  }

  lemma EagerIs(n: nat)
    requires n < |REUSE|
    ensures Eager(EMPTY, REUSE, n + 1) == EagerStep(EMPTY, REUSE, n).state
  {
  }
}
