/** The in-memory store as the service runs it: three tables updated in place. Each method
    makes exactly the state change and gives exactly the reply of the call it implements. */
module MemoryStore {
  import opened Text
  import opened Requests
  import opened StoreInvariants

  class InMemoryStore {
    var items: map<string, ConnectionRequest>
    var installSessions: map<string, InstallSession>
    var installTokens: map<string, string>
    const sha256Hex: string -> string

    constructor (sha256Hex: string -> string)
      ensures Contents() == EMPTY
      ensures this.sha256Hex == sha256Hex
    {
      items := map[];
      installSessions := map[];
      installTokens := map[];
      this.sha256Hex := sha256Hex;
    }

    function Contents(): State
      reads this
    {
      State(items, Installs(installSessions, installTokens))
    }

    function DigestInstallToken(token: string): string {
      sha256Hex(TrimSpace(token))
    }

    /** White space around a token does not matter; what is hashed is the token itself. */
    lemma DigestIgnoresPadding(left: string, token: string, right: string)
      requires AllSpace(left) && AllSpace(right) && token != "" && Trimmed(token)
      ensures DigestInstallToken(left + token + right) == sha256Hex(token)
    {
      TrimPadding(left, token, right);
    }

    method Create(input: CreateInput, now: Time, id: string, nonce: string) returns (reply: Reply)
      modifies `items
      ensures Outcome(Contents(), reply) == Apply(old(Contents()), OnRequest(RequestOp.Create(input, id, nonce)), now)
    {
      if input.userId == "" || input.deviceId == "" || input.connectorId == "" {
        return Failure(MissingFields);
      }
      if input.ttl <= 0 {
        return Failure(NonPositiveTtl);
      }
      var req := ConnectionRequest(id, input.userId, input.deviceId, input.connectorId, input.channel,
                                   Pending, now, now + input.ttl, nonce, "");
      items := items[req.id := req];
      return RequestReply(req);
    }

    method Get(id: string, now: Time) returns (reply: Reply)
      modifies `items
      ensures Outcome(Contents(), reply) == Apply(old(Contents()), OnRequest(RequestOp.Get(id)), now)
    {
      if id !in items {
        return Failure(NotFound);
      }
      var req := ExpireIfNeeded(items[id], now);
      items := items[id := req];
      return RequestReply(req);
    }

    /** The entries are visited in an arbitrary order, and the clock is read again at each. The
        result lists exactly the device's entries stored as pending when the loop ends, each
        once: `keys` are their keys in the table. Every entry differs from before only by
        expiry. */
    method ListPendingForDevice(device: string, readings: map<string, Time>, now: Time)
      returns (out: seq<ConnectionRequest>, ghost keys: seq<string>)
      modifies `items
      ensures ListsOnce(items, items.Keys, device, out, keys)
      ensures items == ListedItems(old(items), readings, now)
      ensures Outcome(Contents(), ListReply(set r | r in out))
           == Apply(old(Contents()), OnRequest(ListPending(device, readings)), now)
    {
      hide Apply, ListingState;
      out, keys := [], [];
      var todo := items.Keys;
      ListingStarts(items, device, readings, now);
      while todo != {}
        invariant todo <= items.Keys
        invariant ListingState(old(items), items, todo, device, readings, now, out, keys)
        decreases todo
      {
        var id :| id in todo;
        ListingAdvances(old(items), items, todo, id, device, readings, now, out, keys);
        var req := ExpireIfNeeded(items[id], Reading(readings, id, now));
        items := items[id := req];
        todo := todo - {id};
        if req.deviceId == device && req.status == Pending {
          out, keys := out + [req], keys + [id];
        }
      }
      ListingMatches(old(items), items, device, readings, now, out, keys);
    }

    method SetLocalDecision(id: string, approved: bool, now: Time) returns (reply: Reply)
      modifies `items
      ensures Outcome(Contents(), reply) == Apply(old(Contents()), OnRequest(Decide(id, approved)), now)
    {
      if id !in items {
        return Failure(NotFound);
      }
      var req := ExpireIfNeeded(items[id], now);
      if req.status == Expired {
        items := items[id := req];
        return Failure(RequestExpired);
      }
      if req.status != Pending {
        return Failure(InvalidTransition);
      }
      if approved {
        req := req.(status := Approved);
      } else {
        req := req.(status := Denied);
      }
      items := items[id := req];
      return RequestReply(req);
    }

    method SetResult(id: string, status: Status, reasonCode: string, now: Time) returns (reply: Reply)
      modifies `items
      ensures Outcome(Contents(), reply) == Apply(old(Contents()), OnRequest(Report(id, status, reasonCode)), now)
    {
      if id !in items {
        return Failure(NotFound);
      }
      var req := ExpireIfNeeded(items[id], now);
      if req.status == Expired {
        items := items[id := req];
        return Failure(RequestExpired);
      }
      if req.status != Approved {
        return Failure(InvalidTransition);
      }
      if status != Connected && status != VerificationFailed {
        return Failure(InvalidTransition);
      }
      req := req.(status := status);
      req := req.(reason := reasonCode);
      items := items[id := req];
      return RequestReply(req);
    }

    method ExpireIfNeeded(req: ConnectionRequest, now: Time) returns (out: ConnectionRequest)
      ensures out == ExpireRequest(req, now)
    {
      out := req;
      if now > req.expiresAt && req.status != Expired && req.status != Connected
         && req.status != Denied && req.status != VerificationFailed {
        out := out.(status := Expired);
      }
    }

    method CreateInstallSession(input: CreateInput, now: Time, id: string, token: string)
      returns (reply: Reply, minted: string)
      modifies `installSessions, `installTokens
      ensures Outcome(Contents(), reply)
           == Apply(old(Contents()), OnInstall(Mint(input, id, DigestInstallToken(token))), now)
      ensures minted == if reply.Success() then token else ""
    {
      if input.userId == "" {
        return Failure(MissingFields), "";
      }
      if input.ttl <= 0 {
        return Failure(NonPositiveTtl), "";
      }
      var session := InstallSession(id, input.userId, input.deviceId, input.connectorId, input.channel,
                                    Requested, now, now + input.ttl, "");
      installSessions := installSessions[session.id := session];
      installTokens := installTokens[DigestInstallToken(token) := session.id];
      return SessionReply(session), token;
    }

    method GetInstallSession(id: string, now: Time) returns (reply: Reply)
      modifies `installSessions, `installTokens
      ensures Outcome(Contents(), reply) == Apply(old(Contents()), OnInstall(GetSession(id)), now)
    {
      if id !in installSessions {
        return Failure(NotFound);
      }
      var session, expired := ExpireInstallIfNeeded(installSessions[id], now);
      if expired {
        DeleteInstallTokensForSession(session.id);
      }
      installSessions := installSessions[id := session];
      return SessionReply(session);
    }

    method SetInstallIdentity(id: string, connector: string, device: string, now: Time) returns (reply: Reply)
      modifies `installSessions, `installTokens
      ensures Outcome(Contents(), reply) == Apply(old(Contents()), OnInstall(Identify(id, connector, device)), now)
    {
      if TrimSpace(connector) == "" || TrimSpace(device) == "" {
        return Failure(MissingFields);
      }
      if id !in installSessions {
        return Failure(NotFound);
      }
      var session, expired := ExpireInstallIfNeeded(installSessions[id], now);
      if expired {
        DeleteInstallTokensForSession(session.id);
        installSessions := installSessions[id := session];
        return ExpiredSession(session);
      }
      if session.status != Requested && session.status != InstallApproved {
        return Failure(InvalidTransition);
      }
      session := session.(connectorId := TrimSpace(connector));
      session := session.(deviceId := TrimSpace(device));
      installSessions := installSessions[id := session];
      return SessionReply(session);
    }

    method SetInstallApproval(id: string, approved: bool, now: Time) returns (reply: Reply)
      modifies `installSessions, `installTokens
      ensures Outcome(Contents(), reply) == Apply(old(Contents()), OnInstall(Approve(id, approved)), now)
    {
      if id !in installSessions {
        return Failure(NotFound);
      }
      var session, expired := ExpireInstallIfNeeded(installSessions[id], now);
      if expired {
        DeleteInstallTokensForSession(session.id);
        installSessions := installSessions[id := session];
        return ExpiredSession(session);
      }
      if session.status != Requested {
        return Failure(InvalidTransition);
      }
      if approved {
        session := session.(status := InstallApproved);
      } else {
        session := session.(status := InstallFailed, reason := "Denied");
        DeleteInstallTokensForSession(session.id);
      }
      installSessions := installSessions[id := session];
      return SessionReply(session);
    }

    method SetInstallResult(id: string, status: InstallStatus, reasonCode: string, now: Time) returns (reply: Reply)
      modifies `installSessions, `installTokens
      ensures Outcome(Contents(), reply) == Apply(old(Contents()), OnInstall(InstallReport(id, status, reasonCode)), now)
    {
      if id !in installSessions {
        return Failure(NotFound);
      }
      var session, expired := ExpireInstallIfNeeded(installSessions[id], now);
      if expired {
        DeleteInstallTokensForSession(session.id);
        installSessions := installSessions[id := session];
        return ExpiredSession(session);
      }
      if session.status != InstallApproved {
        return Failure(InvalidTransition);
      }
      if status != Installed && status != InstallFailed {
        return Failure(InvalidTransition);
      }
      if status == Installed && (TrimSpace(session.connectorId) == "" || TrimSpace(session.deviceId) == "") {
        return Failure(InvalidTransition);
      }
      session := session.(status := status, reason := reasonCode);
      installSessions := installSessions[id := session];
      DeleteInstallTokensForSession(session.id);
      return SessionReply(session);
    }

    method RedeemInstallToken(token: string, now: Time) returns (reply: Reply)
      modifies `installSessions, `installTokens
      ensures Outcome(Contents(), reply) == Apply(old(Contents()), OnInstall(Redeem(DigestInstallToken(token))), now)
    {
      var digest := DigestInstallToken(token);
      if digest !in installTokens {
        return Failure(NotFound);
      }
      var sessionId := installTokens[digest];
      if sessionId !in installSessions {
        return Failure(NotFound);
      }
      var session, expired := ExpireInstallIfNeeded(installSessions[sessionId], now);
      if expired {
        DeleteInstallTokensForSession(session.id);
        installSessions := installSessions[sessionId := session];
        return ExpiredSession(session);
      }
      if session.status != InstallApproved {
        return Failure(InvalidTransition);
      }
      DeleteInstallTokensForSession(session.id);
      assert installSessions == installSessions[sessionId := session];
      return SessionReply(session);
    }

    method ExpireInstallIfNeeded(session: InstallSession, now: Time) returns (out: InstallSession, expired: bool)
      ensures out == ExpireSession(session, now) && expired == SessionExpires(session, now)
    {
      out := session;
      if now > session.expiresAt && session.status != Installed && session.status != InstallFailed {
        out := out.(status := InstallFailed);
        if out.reason == "" {
          out := out.(reason := "Expired");
        }
        return out, true;
      }
      return out, false;
    }

    /** Deletes keys while ranging over the table, in an arbitrary order. */
    method DeleteInstallTokensForSession(sid: string)
      modifies `installTokens
      ensures installTokens == DropTokens(old(installTokens), sid)
    {
      var todo := installTokens.Keys;
      while todo != {}
        invariant todo <= old(installTokens.Keys) && installTokens.Keys <= old(installTokens.Keys)
        invariant forall d :: d in todo ==> d in installTokens
        invariant forall d :: d in installTokens ==> installTokens[d] == old(installTokens)[d]
        invariant forall d :: d in old(installTokens) && d !in todo ==>
                    (d in installTokens <==> old(installTokens)[d] != sid)
        decreases todo
      {
        var d :| d in todo;
        todo := todo - {d};
        if installTokens[d] == sid {
          installTokens := installTokens - {d};
        }
      }
    }
  }

  /** Of the entries under `visited`, out lists those pending for the device, each once: the
      i-th is stored under keys[i]. */
  ghost predicate ListsOnce(items: Items, visited: set<string>, device: string, out: seq<ConnectionRequest>, keys: seq<string>) {
    && |keys| == |out|
    && (forall i, j :: 0 <= i < j < |keys| ==> keys[i] != keys[j])
    && (forall i :: 0 <= i < |keys| ==>
          keys[i] in visited && keys[i] in items && items[keys[i]] == out[i] && PendingFor(out[i], device))
    && (forall id :: id in visited && id in items && PendingFor(items[id], device) ==> id in keys)
  }

  /** Halfway through the loop: entries still to visit are as before, the others are expired
      at their own reading, and the result lists the visited ones that are pending. */
  ghost predicate ListingState(before: Items, items: Items, todo: set<string>, device: string,
                               readings: map<string, Time>, now: Time, out: seq<ConnectionRequest>, keys: seq<string>) {
    && items.Keys == before.Keys
    && (forall id :: id in items ==>
          items[id] == if id in todo then before[id] else ExpireRequest(before[id], Reading(readings, id, now)))
    && ListsOnce(items, items.Keys - todo, device, out, keys)
  }

  lemma ListingStarts(items: Items, device: string, readings: map<string, Time>, now: Time)
    ensures ListingState(items, items, items.Keys, device, readings, now, [], [])
  {
  }

  lemma ListingAdvances(before: Items, items: Items, todo: set<string>, id: string, device: string,
                        readings: map<string, Time>, now: Time, out: seq<ConnectionRequest>, keys: seq<string>)
    requires id in todo && id in items
    requires ListingState(before, items, todo, device, readings, now, out, keys)
    ensures var r := ExpireRequest(items[id], Reading(readings, id, now));
            var more := PendingFor(r, device);
            ListingState(before, items[id := r], todo - {id}, device, readings, now,
                         if more then out + [r] else out, if more then keys + [id] else keys)
  {
    var r := ExpireRequest(items[id], Reading(readings, id, now));
    hide ExpireRequest, Reading, PendingFor;
    ListsOneMore(items, items.Keys - todo, id, r, device, out, keys);
    assert items[id := r].Keys - (todo - {id}) == (items.Keys - todo) + {id};
  }

  lemma ListsOneMore(items: Items, visited: set<string>, id: string, r: ConnectionRequest, device: string,
                     out: seq<ConnectionRequest>, keys: seq<string>)
    requires ListsOnce(items, visited, device, out, keys) && id !in visited
    ensures var more := PendingFor(r, device);
            ListsOnce(items[id := r], visited + {id}, device,
                      if more then out + [r] else out, if more then keys + [id] else keys)
  {
    hide PendingFor;
    if PendingFor(r, device) {
      assert (keys + [id])[|keys|] == id;
      forall k | k in visited && k in items && PendingFor(items[k], device) ensures k in keys + [id] {
        assert k in keys;
      }
    }
  }

  lemma ListingMatches(before: Items, after: Items, device: string, readings: map<string, Time>, now: Time,
                       out: seq<ConnectionRequest>, keys: seq<string>)
    requires ListingState(before, after, {}, device, readings, now, out, keys)
    ensures ListsOnce(after, after.Keys, device, out, keys)
    ensures after == ListedItems(before, readings, now)
    ensures forall s: State :: s.items == before ==>
              Apply(s, OnRequest(ListPending(device, readings)), now)
                == Outcome(s.(items := after), ListReply(set r | r in out))
  {
    assert after == ListedItems(before, readings, now);
    assert after.Keys - {} == after.Keys;
    hide PendingFor, ExpireRequest;
    forall r ensures r in out <==> r in (set id | id in after && PendingFor(after[id], device) :: after[id]) {
      if r in out {
        var i :| 0 <= i < |out| && out[i] == r;
        assert after[keys[i]] == r;
      }
    }
    assert (set r | r in out) == (set id | id in after && PendingFor(after[id], device) :: after[id]);
  }

  /** In a table whose entries are filed under their own ids, the listed ids differ. */
  lemma ListedIdsDiffer(items: Items, device: string, out: seq<ConnectionRequest>, keys: seq<string>)
    requires GoodItems(items) && ListsOnce(items, items.Keys, device, out, keys)
    ensures forall i, j :: 0 <= i < j < |out| ==> out[i].id != out[j].id
  {
    forall i, j | 0 <= i < j < |out| ensures out[i].id != out[j].id {
      assert GoodRequest(keys[i], items[keys[i]]) && GoodRequest(keys[j], items[keys[j]]);
    }
  }
}
