/** What each store call promises, for every state: exactly when it succeeds, what it then
    stores and answers, which error it gives otherwise, and what it leaves alone. All of it is
    written on the stored entries. */
module Promises {
  import opened Wrappers
  import opened Text
  import opened Requests
  import opened StoreInvariants
  import opened Durable

  // ---------- Frames ----------

  /** No request other than `id` is different. */
  ghost predicate OnlyRequest(s: Items, t: Items, id: string) {
    && (forall k :: k != id ==> (k in s <==> k in t))
    && (forall k :: k != id && k in s && k in t ==> t[k] == s[k])
  }

  ghost predicate OnlySession(s: Installs, t: Installs, id: string) {
    && (forall k :: k != id ==> (k in s.sessions <==> k in t.sessions))
    && (forall k :: k != id && k in s.sessions && k in t.sessions ==> t.sessions[k] == s.sessions[k])
  }

  /** Exactly the tokens that lead to `sid` are gone. */
  ghost predicate TokensDropped(s: Installs, t: Installs, sid: string) {
    forall d :: (d in t.tokens <==> d in s.tokens && s.tokens[d] != sid) && (d in t.tokens ==> t.tokens[d] == s.tokens[d])
  }

  // ---------- Connection requests ----------

  lemma CreatePromise(s: Items, input: CreateInput, id: string, nonce: string, now: Time)
    ensures var r := ApplyRequest(s, Create(input, id, nonce), now);
            && (r.reply.RequestReply? <==>
                  input.userId != "" && input.deviceId != "" && input.connectorId != "" && input.ttl > 0)
            && (r.reply.RequestReply? ==>
                  && OnlyRequest(s, r.items, id) && id in r.items && r.items[id] == r.reply.request
                  && r.items[id].id == id && r.items[id].nonce == nonce
                  && r.items[id].userId == input.userId && r.items[id].deviceId == input.deviceId
                  && r.items[id].connectorId == input.connectorId && r.items[id].channel == input.channel
                  && r.items[id].status == Pending && r.items[id].reason == ""
                  && r.items[id].createdAt == now && r.items[id].expiresAt - now == input.ttl)
            && (!r.reply.RequestReply? ==>
                  && r.items == s && r.reply.Failure?
                  && (r.reply.error == MissingFields <==>
                        input.userId == "" || input.deviceId == "" || input.connectorId == "")
                  && (r.reply.error != MissingFields ==> r.reply.error == NonPositiveTtl))
  {
  }

  /** Expired already, or overdue now and not decided for good. */
  predicate IsExpired(r: ConnectionRequest, now: Time) {
    || r.status == Expired
    || (now > r.expiresAt && (r.status == Pending || r.status == Approved || r.status.OtherStatus?))
  }

  lemma GetPromise(s: Items, id: string, now: Time)
    ensures var r := ApplyRequest(s, Get(id), now);
            && OnlyRequest(s, r.items, id) && (id in r.items <==> id in s)
            && (id !in s ==> r.reply == Failure(NotFound))
            && (id in s ==>
                  && r.reply == RequestReply(r.items[id])
                  && r.items[id].(status := s[id].status) == s[id]
                  && r.items[id].status == if IsExpired(s[id], now) then Expired else s[id].status)
  {
  }

  /** Entry `id` is listed: pending for the device, and not past its expiry when it is read. */
  predicate IsListed(s: Items, id: string, device: string, readings: map<string, Time>, now: Time) {
    && id in s && s[id].deviceId == device && s[id].status == Pending
    && (if id in readings then readings[id] <= s[id].expiresAt else now <= s[id].expiresAt)
  }

  lemma ListPromise(s: Items, device: string, readings: map<string, Time>, now: Time)
    ensures var r := ApplyRequest(s, ListPending(device, readings), now);
            && r.items.Keys == s.Keys && r.reply.ListReply?
            && (forall id :: id in s ==>
                  && r.items[id].(status := s[id].status) == s[id]
                  && r.items[id].status == if IsExpired(s[id], if id in readings then readings[id] else now) then Expired
                                           else s[id].status)
            && (forall e :: e in r.reply.pending <==> exists id :: IsListed(s, id, device, readings, now) && s[id] == e)
  {
    var r := ApplyRequest(s, ListPending(device, readings), now);
    assert r.reply.pending == set id | id in r.items && PendingFor(r.items[id], device) :: r.items[id];
    forall id | id in s
      ensures r.items[id] == ExpireRequest(s[id], if id in readings then readings[id] else now)
      ensures r.items[id].(status := s[id].status) == s[id]
      ensures PendingFor(r.items[id], device) <==> IsListed(s, id, device, readings, now)
      ensures PendingFor(r.items[id], device) ==> r.items[id] == s[id] {
    }
    hide ApplyRequest, PendingFor, IsListed, ExpireRequest;
    forall e ensures e in r.reply.pending <==> exists id :: IsListed(s, id, device, readings, now) && s[id] == e {
      if e in r.reply.pending {
        var id :| id in r.items && PendingFor(r.items[id], device) && r.items[id] == e;
        assert IsListed(s, id, device, readings, now) && s[id] == e;
      }
      if id :| id in s && IsListed(s, id, device, readings, now) && s[id] == e {
        assert r.items[id] == e;
      }
    }
  }

  lemma DecidePromise(s: Items, id: string, approved: bool, now: Time)
    ensures var r := ApplyRequest(s, Decide(id, approved), now);
            && OnlyRequest(s, r.items, id) && (id in r.items <==> id in s)
            && (r.reply.RequestReply? <==> id in s && s[id].status == Pending && now <= s[id].expiresAt)
            && (r.reply.RequestReply? ==>
                  && r.items[id] == r.reply.request && r.items[id].(status := Pending) == s[id]
                  && (approved ==> r.items[id].status == Approved) && (!approved ==> r.items[id].status == Denied))
            && (!r.reply.RequestReply? ==>
                  && r.reply.Failure?
                  && (r.reply.error == NotFound <==> id !in s)
                  && (r.reply.error == RequestExpired <==> id in s && IsExpired(s[id], now))
                  && (r.reply.error !in {NotFound, RequestExpired} ==> r.reply.error == InvalidTransition)
                  && (id in s ==> r.items[id] == if IsExpired(s[id], now) then s[id].(status := Expired) else s[id]))
  {
  }

  lemma ReportPromise(s: Items, id: string, result: Status, reason: string, now: Time)
    ensures var r := ApplyRequest(s, Report(id, result, reason), now);
            && OnlyRequest(s, r.items, id) && (id in r.items <==> id in s)
            && (r.reply.RequestReply? <==>
                  && id in s && s[id].status == Approved && now <= s[id].expiresAt
                  && (result == Connected || result == VerificationFailed))
            && (r.reply.RequestReply? ==>
                  && r.items[id] == r.reply.request && r.items[id].status == result && r.items[id].reason == reason
                  && r.items[id].(status := Approved, reason := s[id].reason) == s[id])
            && (!r.reply.RequestReply? ==>
                  && r.reply.Failure?
                  && (r.reply.error == NotFound <==> id !in s)
                  && (r.reply.error == RequestExpired <==> id in s && IsExpired(s[id], now))
                  && (r.reply.error !in {NotFound, RequestExpired} ==> r.reply.error == InvalidTransition)
                  && (id in s ==> r.items[id] == if IsExpired(s[id], now) then s[id].(status := Expired) else s[id]))
  {
  }

  // ---------- Install sessions ----------

  lemma MintPromise(s: Installs, input: CreateInput, id: string, digest: string, now: Time)
    ensures var r := ApplyInstall(s, Mint(input, id, digest), now);
            && (r.reply.SessionReply? <==> input.userId != "" && input.ttl > 0)
            && (r.reply.SessionReply? ==>
                  && OnlySession(s, r.installs, id) && id in r.installs.sessions && r.installs.sessions[id] == r.reply.session
                  && r.reply.session.id == id && r.reply.session.userId == input.userId
                  && r.reply.session.deviceId == input.deviceId && r.reply.session.connectorId == input.connectorId
                  && r.reply.session.channel == input.channel
                  && r.reply.session.status == Requested && r.reply.session.reason == ""
                  && r.reply.session.createdAt == now && r.reply.session.expiresAt - now == input.ttl
                  && digest in r.installs.tokens && r.installs.tokens[digest] == id
                  && (forall d :: d != digest ==> (d in r.installs.tokens <==> d in s.tokens))
                  && (forall d :: d != digest && d in s.tokens ==> r.installs.tokens[d] == s.tokens[d]))
            && (!r.reply.SessionReply? ==>
                  r.installs == s && r.reply == Failure(if input.userId == "" then MissingFields else NonPositiveTtl))
  {
  }

  /** Stored, past its expiry, and neither installed nor failed. */
  predicate PastDue(s: Installs, id: string, now: Time) {
    && id in s.sessions && now > s.sessions[id].expiresAt
    && s.sessions[id].status != Installed && s.sessions[id].status != InstallFailed
  }

  /** Session `id` has been failed as overdue, under its own reason if it had one, and its tokens
      are gone. */
  ghost predicate FailedAsOverdue(s: Installs, t: Installs, id: string)
    requires id in s.sessions
  {
    && OnlySession(s, t, id) && TokensDropped(s, t, s.sessions[id].id)
    && id in t.sessions && t.sessions[id].status == InstallFailed
    && (s.sessions[id].reason == "" ==> t.sessions[id].reason == "Expired")
    && (s.sessions[id].reason != "" ==> t.sessions[id].reason == s.sessions[id].reason)
    && t.sessions[id].(status := s.sessions[id].status, reason := s.sessions[id].reason) == s.sessions[id]
  }

  lemma DroppingDrops(s: Installs, t: Installs, sid: string)
    requires t.tokens == DropTokens(s.tokens, sid)
    ensures TokensDropped(s, t, sid)
  {
  }

  lemma OverduePromise(s: Installs, id: string, now: Time)
    requires PastDue(s, id, now)
    ensures SessionExpires(s.sessions[id], now)
    ensures FailedAsOverdue(s, Overdue(s, id, now), id)
    ensures Overdue(s, id, now).sessions[id] == ExpireSession(s.sessions[id], now)
  {
    DroppingDrops(s, Overdue(s, id, now), s.sessions[id].id);
  }

  lemma PastDueIs(s: Installs, id: string, now: Time)
    ensures id in s.sessions ==> (PastDue(s, id, now) <==> SessionExpires(s.sessions[id], now))
  {
  }

  lemma GetSessionPromise(s: Installs, id: string, now: Time)
    ensures var r := ApplyInstall(s, GetSession(id), now);
            && (id !in s.sessions ==> r.installs == s && r.reply == Failure(NotFound))
            && (id in s.sessions ==> id in r.installs.sessions && r.reply == SessionReply(r.installs.sessions[id]))
            && (PastDue(s, id, now) ==> FailedAsOverdue(s, r.installs, id))
            && (!PastDue(s, id, now) ==> r.installs == s)
  {
    if PastDue(s, id, now) {
      OverduePromise(s, id, now);
      hide Overdue, ExpireSession;
    } else if id in s.sessions {
      assert s.sessions[id := s.sessions[id]] == s.sessions;
    }
  }

  /** What a call that is not refused for its input does with a session it must find in time. */
  ghost predicate RefusedUnless(s: Installs, r: InstallOutcome, id: string, now: Time) {
    && (id !in s.sessions ==> r.installs == s && r.reply == Failure(NotFound))
    && (PastDue(s, id, now) ==>
          FailedAsOverdue(s, r.installs, id) && r.reply == ExpiredSession(r.installs.sessions[id]))
    && (id in s.sessions && !PastDue(s, id, now) && !r.reply.SessionReply? ==>
          r.installs == s && r.reply == Failure(InvalidTransition))
  }

  lemma IdentifyPromise(s: Installs, id: string, connector: string, device: string, now: Time)
    ensures var r := ApplyInstall(s, Identify(id, connector, device), now);
            && (r.reply.SessionReply? <==>
                  && TrimSpace(connector) != "" && TrimSpace(device) != ""
                  && id in s.sessions && now <= s.sessions[id].expiresAt
                  && (s.sessions[id].status == Requested || s.sessions[id].status == InstallApproved))
            && (r.reply.SessionReply? ==>
                  && OnlySession(s, r.installs, id) && r.installs.tokens == s.tokens && id in r.installs.sessions
                  && r.installs.sessions[id] == r.reply.session
                  && r.reply.session.connectorId == TrimSpace(connector) && r.reply.session.deviceId == TrimSpace(device)
                  && r.reply.session.(connectorId := s.sessions[id].connectorId, deviceId := s.sessions[id].deviceId)
                     == s.sessions[id])
            && (if TrimSpace(connector) == "" || TrimSpace(device) == ""
                then r.installs == s && r.reply == Failure(MissingFields)
                else RefusedUnless(s, r, id, now))
  {
    hide TrimSpace;
    PastDueIs(s, id, now);
    if PastDue(s, id, now) {
      OverduePromise(s, id, now);
      hide Overdue, ExpireSession;
    }
  }

  lemma ApprovePromise(s: Installs, id: string, approved: bool, now: Time)
    ensures var r := ApplyInstall(s, Approve(id, approved), now);
            && (r.reply.SessionReply? <==>
                  id in s.sessions && s.sessions[id].status == Requested && now <= s.sessions[id].expiresAt)
            && (r.reply.SessionReply? ==>
                  && OnlySession(s, r.installs, id) && id in r.installs.sessions && r.installs.sessions[id] == r.reply.session
                  && r.reply.session.(status := Requested, reason := s.sessions[id].reason) == s.sessions[id]
                  && (approved ==> r.reply.session.status == InstallApproved && r.reply.session.reason == s.sessions[id].reason
                                   && r.installs.tokens == s.tokens)
                  && (!approved ==> r.reply.session.status == InstallFailed && r.reply.session.reason == "Denied"
                                    && TokensDropped(s, r.installs, s.sessions[id].id)))
            && RefusedUnless(s, r, id, now)
  {
    PastDueIs(s, id, now);
    if PastDue(s, id, now) {
      OverduePromise(s, id, now);
      hide Overdue, ExpireSession;
    } else if id in s.sessions {
      DroppingDrops(s, Installs(s.sessions, DropTokens(s.tokens, s.sessions[id].id)), s.sessions[id].id);
    }
  }

  lemma InstallReportPromise(s: Installs, id: string, outcome: InstallStatus, reason: string, now: Time)
    ensures var r := ApplyInstall(s, InstallReport(id, outcome, reason), now);
            && (r.reply.SessionReply? <==>
                  && id in s.sessions && s.sessions[id].status == InstallApproved && now <= s.sessions[id].expiresAt
                  && (outcome == InstallFailed
                      || (outcome == Installed && TrimSpace(s.sessions[id].connectorId) != ""
                          && TrimSpace(s.sessions[id].deviceId) != "")))
            && (r.reply.SessionReply? ==>
                  && OnlySession(s, r.installs, id) && TokensDropped(s, r.installs, s.sessions[id].id)
                  && id in r.installs.sessions && r.installs.sessions[id] == r.reply.session
                  && r.reply.session.status == outcome && r.reply.session.reason == reason
                  && r.reply.session.(status := InstallApproved, reason := s.sessions[id].reason) == s.sessions[id])
            && RefusedUnless(s, r, id, now)
  {
    hide TrimSpace;
    PastDueIs(s, id, now);
    if PastDue(s, id, now) {
      OverduePromise(s, id, now);
      hide Overdue, ExpireSession;
    } else if id in s.sessions {
      DroppingDrops(s, Installs(s.sessions, DropTokens(s.tokens, s.sessions[id].id)), s.sessions[id].id);
    }
  }

  /** A token is redeemed exactly when it is known, and its session is stored, approved and not
      past its expiry; it changes no session and takes all tokens of its own. */
  lemma RedeemPromise(s: Installs, digest: string, now: Time)
    ensures var r := ApplyInstall(s, Redeem(digest), now);
            && (r.reply.SessionReply? <==>
                  && digest in s.tokens && s.tokens[digest] in s.sessions
                  && s.sessions[s.tokens[digest]].status == InstallApproved
                  && now <= s.sessions[s.tokens[digest]].expiresAt)
            && (r.reply.Success() <==> r.reply.SessionReply?)
            && (r.reply.SessionReply? ==>
                  && r.reply.session == s.sessions[s.tokens[digest]] && r.installs.sessions == s.sessions
                  && TokensDropped(s, r.installs, r.reply.session.id))
            && (digest !in s.tokens ==> r.installs == s && r.reply == Failure(NotFound))
            && (digest in s.tokens ==> RefusedUnless(s, r, s.tokens[digest], now))
  {
    if digest in s.tokens {
      var sid := s.tokens[digest];
      PastDueIs(s, sid, now);
      if PastDue(s, sid, now) {
        OverduePromise(s, sid, now);
        hide Overdue, ExpireSession;
      } else if sid in s.sessions {
        assert s.sessions[sid := s.sessions[sid]] == s.sessions;
        DroppingDrops(s, Installs(s.sessions, DropTokens(s.tokens, s.sessions[sid].id)), s.sessions[sid].id);
      }
    }
  }

  // ---------- The durable wrapper ----------

  /** Memory changes as in memory alone, whatever becomes of the write; the file becomes all of
      memory when the call succeeded there and the write did, and is left alone otherwise; a
      caller hears of success only then, or when all it did was read. */
  lemma DurablePromise(d: Store, op: Op, now: Time, writeOk: bool)
    ensures var r, m := Serve(d, op, now, writeOk), Apply(d.mem, op, now);
            var readOnly := (op.OnRequest? && (op.request.Get? || op.request.ListPending?))
                         || (op.OnInstall? && op.install.GetSession?);
            var failed := m.reply.Failure? || m.reply.ExpiredSession?;
            && r.store.mem == m.state
            && (!failed && writeOk ==> r.store.file == Some(r.store.mem))
            && (failed || !writeOk ==> r.store.file == d.file)
            && (!r.reply.Failure? && !r.reply.ExpiredSession? <==> !failed && (writeOk || readOnly))
            && (!r.reply.Failure? ==> r.reply == m.reply)
            && (m.reply.Failure? ==> r.reply == m.reply)
            && (m.reply.ExpiredSession? ==> r.reply == Failure(RequestExpired))
            && (!failed && !writeOk && !readOnly ==> r.reply == Failure(WriteFailed))
  {
    hide Apply;
  }

  /** A new process starts from the file, or from nothing. */
  lemma ReopenPromise(d: Store)
    ensures Reopen(d).file == d.file
    ensures d.file.Some? ==> Reopen(d).mem == d.file.value
    ensures d.file.None? ==> Reopen(d).mem == State(map[], Installs(map[], map[]))
  {
  }
}
