/** Connection requests, install sessions, and what each store call does to them.
    Clock readings and fresh identifiers are inputs; an install token is represented
    by its digest, since the store never keeps anything else. */
module Requests {
  import opened Text

  /** Nanoseconds; unbounded. */
  type Time = int

  datatype Status =
    | Pending
    | Denied
    | Approved
    | Expired
    | VerificationFailed
    | Connected
    | OtherStatus(name: string)

  datatype ConnectionRequest = ConnectionRequest(
    id: string, userId: string, deviceId: string, connectorId: string, channel: string,
    status: Status, createdAt: Time, expiresAt: Time, nonce: string, reason: string)

  datatype InstallStatus =
    | Requested
    | InstallApproved
    | Installed
    | InstallFailed
    | OtherInstallStatus(name: string)

  datatype InstallSession = InstallSession(
    id: string, userId: string, deviceId: string, connectorId: string, channel: string,
    status: InstallStatus, createdAt: Time, expiresAt: Time, reason: string)

  datatype CreateInput = CreateInput(
    userId: string, deviceId: string, connectorId: string, channel: string, ttl: int)

  datatype Error = NotFound | InvalidTransition | RequestExpired | MissingFields | NonPositiveTtl | WriteFailed

  type Items = map<string, ConnectionRequest>

  /** Install sessions, and the table from token digests to session ids. */
  datatype Installs = Installs(sessions: map<string, InstallSession>, tokens: map<string, string>)

  datatype State = State(items: Items, installs: Installs)

  const EMPTY := State(map[], Installs(map[], map[]))

  /** Calls on connection requests, with the identifiers they draw. ListPending re-reads the
      clock for every entry it visits; `readings` holds those readings, by id. */
  datatype RequestOp =
    | Create(input: CreateInput, id: string, nonce: string)
    | Get(id: string)
    | ListPending(device: string, readings: map<string, Time>)
    | Decide(id: string, approved: bool)
    | Report(id: string, result: Status, reason: string)

  /** Calls on install sessions. */
  datatype InstallOp =
    | Mint(input: CreateInput, id: string, digest: string)
    | GetSession(id: string)
    | Identify(id: string, connector: string, device: string)
    | Approve(id: string, approved: bool)
    | InstallReport(id: string, outcome: InstallStatus, reason: string)
    | Redeem(digest: string)

  datatype Op = OnRequest(request: RequestOp) | OnInstall(install: InstallOp)

  datatype Reply =
    | RequestReply(request: ConnectionRequest)
    | SessionReply(session: InstallSession)
    | ListReply(pending: set<ConnectionRequest>)
    | Failure(error: Error)
    | ExpiredSession(session: InstallSession)  // the expired session, together with RequestExpired
  {
    predicate Success() {
      !Failure? && !ExpiredSession?
    }
  }

  datatype RequestOutcome = RequestOutcome(items: Items, reply: Reply)

  datatype InstallOutcome = InstallOutcome(installs: Installs, reply: Reply)

  datatype Outcome = Outcome(state: State, reply: Reply)

  // ---------- Expiry of one entry ----------

  predicate Settled(status: Status) {
    status == Expired || status == Connected || status == Denied || status == VerificationFailed
  }

  predicate RequestExpires(r: ConnectionRequest, now: Time) {
    now > r.expiresAt && !Settled(r.status)
  }

  function ExpireRequest(r: ConnectionRequest, now: Time): ConnectionRequest {
    if RequestExpires(r, now) then r.(status := Expired) else r
  }

  predicate SessionExpires(x: InstallSession, now: Time) {
    now > x.expiresAt && x.status != Installed && x.status != InstallFailed
  }

  predicate Open(status: InstallStatus) {
    status == Requested || status == InstallApproved
  }

  function ExpireSession(x: InstallSession, now: Time): InstallSession {
    if SessionExpires(x, now) then
      x.(status := InstallFailed, reason := if x.reason == "" then "Expired" else x.reason)
    else x
  }

  function DropTokens(tokens: map<string, string>, sid: string): map<string, string> {
    map d | d in tokens && tokens[d] != sid :: tokens[d]
  }

  function Reading(readings: map<string, Time>, id: string, now: Time): Time {
    if id in readings then readings[id] else now
  }

  /** Inputs that are not refused. */
  predicate Creatable(input: CreateInput) {
    input.userId != "" && input.deviceId != "" && input.connectorId != "" && input.ttl > 0
  }

  predicate Mintable(input: CreateInput) {
    input.userId != "" && input.ttl > 0
  }

  // ---------- Connection requests ----------

  function DoCreate(s: Items, input: CreateInput, id: string, nonce: string, now: Time): RequestOutcome {
    if input.userId == "" || input.deviceId == "" || input.connectorId == "" then RequestOutcome(s, Failure(MissingFields))
    else if input.ttl <= 0 then RequestOutcome(s, Failure(NonPositiveTtl))
    else
      var r := ConnectionRequest(id, input.userId, input.deviceId, input.connectorId, input.channel,
                                 Pending, now, now + input.ttl, nonce, "");
      PutRequest(s, id, r)
  }

  function PutRequest(s: Items, id: string, r: ConnectionRequest): RequestOutcome {
    RequestOutcome(s[id := r], RequestReply(r))
  }

  function DoGet(s: Items, id: string, now: Time): RequestOutcome {
    if id !in s then RequestOutcome(s, Failure(NotFound)) else PutRequest(s, id, ExpireRequest(s[id], now))
  }

  function ListedItems(s: Items, readings: map<string, Time>, now: Time): map<string, ConnectionRequest> {
    map id | id in s :: ExpireRequest(s[id], Reading(readings, id, now))
  }

  predicate PendingFor(r: ConnectionRequest, device: string) {
    r.deviceId == device && r.status == Pending
  }

  function DoListPending(s: Items, device: string, readings: map<string, Time>, now: Time): RequestOutcome {
    var items := ListedItems(s, readings, now);
    RequestOutcome(items, ListReply(set id | id in items && PendingFor(items[id], device) :: items[id]))
  }

  function DoDecide(s: Items, id: string, approved: bool, now: Time): RequestOutcome {
    if id !in s then RequestOutcome(s, Failure(NotFound)) else
      var r := ExpireRequest(s[id], now);
      if r.status == Expired then RequestOutcome(s[id := r], Failure(RequestExpired))
      else if r.status != Pending then RequestOutcome(s, Failure(InvalidTransition))
      else PutRequest(s, id, r.(status := if approved then Approved else Denied))
  }

  function DoReport(s: Items, id: string, result: Status, reason: string, now: Time): RequestOutcome {
    if id !in s then RequestOutcome(s, Failure(NotFound)) else
      var r := ExpireRequest(s[id], now);
      if r.status == Expired then RequestOutcome(s[id := r], Failure(RequestExpired))
      else if r.status != Approved then RequestOutcome(s, Failure(InvalidTransition))
      else if result != Connected && result != VerificationFailed then RequestOutcome(s, Failure(InvalidTransition))
      else PutRequest(s, id, r.(status := result, reason := reason))
  }

  // ---------- Install sessions ----------

  function DoMint(s: Installs, input: CreateInput, id: string, digest: string, now: Time): InstallOutcome {
    if input.userId == "" then InstallOutcome(s, Failure(MissingFields))
    else if input.ttl <= 0 then InstallOutcome(s, Failure(NonPositiveTtl))
    else
      var x := InstallSession(id, input.userId, input.deviceId, input.connectorId, input.channel,
                              Requested, now, now + input.ttl, "");
      InstallOutcome(s.(sessions := s.sessions[id := x], tokens := s.tokens[digest := id]), SessionReply(x))
  }

  /** Session `id` becomes `x`; with `drop`, its tokens are deleted. */
  function Write(s: Installs, id: string, x: InstallSession, drop: bool): Installs
    requires id in s.sessions
  {
    Installs(s.sessions[id := x], if drop then DropTokens(s.tokens, s.sessions[id].id) else s.tokens)
  }

  /** The state after a call found session `id` overdue. */
  function Overdue(s: Installs, id: string, now: Time): Installs
    requires id in s.sessions
  {
    Write(s, id, ExpireSession(s.sessions[id], now), true)
  }

  function PutSession(s: Installs, id: string, x: InstallSession, drop: bool): InstallOutcome
    requires id in s.sessions
  {
    InstallOutcome(Write(s, id, x, drop), SessionReply(x))
  }

  function DoGetSession(s: Installs, id: string, now: Time): InstallOutcome {
    if id !in s.sessions then InstallOutcome(s, Failure(NotFound))
    else if SessionExpires(s.sessions[id], now) then
      InstallOutcome(Overdue(s, id, now), SessionReply(ExpireSession(s.sessions[id], now)))
    else PutSession(s, id, s.sessions[id], false)
  }

  function OverdueReply(s: Installs, id: string, now: Time): InstallOutcome
    requires id in s.sessions
  {
    InstallOutcome(Overdue(s, id, now), ExpiredSession(ExpireSession(s.sessions[id], now)))
  }

  function DoIdentify(s: Installs, id: string, connector: string, device: string, now: Time): InstallOutcome {
    if Blank(connector) || Blank(device) then InstallOutcome(s, Failure(MissingFields))
    else if id !in s.sessions then InstallOutcome(s, Failure(NotFound))
    else if SessionExpires(s.sessions[id], now) then OverdueReply(s, id, now)
    else if !Open(s.sessions[id].status) then InstallOutcome(s, Failure(InvalidTransition))
    else PutSession(s, id, s.sessions[id].(connectorId := TrimSpace(connector), deviceId := TrimSpace(device)), false)
  }

  function DoApprove(s: Installs, id: string, approved: bool, now: Time): InstallOutcome {
    if id !in s.sessions then InstallOutcome(s, Failure(NotFound))
    else if SessionExpires(s.sessions[id], now) then OverdueReply(s, id, now)
    else if s.sessions[id].status != Requested then InstallOutcome(s, Failure(InvalidTransition))
    else if approved then PutSession(s, id, s.sessions[id].(status := InstallApproved), false)
    else PutSession(s, id, s.sessions[id].(status := InstallFailed, reason := "Denied"), true)
  }

  function DoInstallReport(s: Installs, id: string, outcome: InstallStatus, reason: string, now: Time): InstallOutcome {
    if id !in s.sessions then InstallOutcome(s, Failure(NotFound))
    else if SessionExpires(s.sessions[id], now) then OverdueReply(s, id, now)
    else if s.sessions[id].status != InstallApproved then InstallOutcome(s, Failure(InvalidTransition))
    else if outcome != Installed && outcome != InstallFailed then InstallOutcome(s, Failure(InvalidTransition))
    else if outcome == Installed && LacksIdentity(s.sessions[id]) then InstallOutcome(s, Failure(InvalidTransition))
    else PutSession(s, id, s.sessions[id].(status := outcome, reason := reason), true)
  }

  predicate LacksIdentity(x: InstallSession) {
    Blank(x.connectorId) || Blank(x.deviceId)
  }

  function DoRedeem(s: Installs, digest: string, now: Time): InstallOutcome {
    if digest !in s.tokens then InstallOutcome(s, Failure(NotFound)) else
      var sid := s.tokens[digest];
      if sid !in s.sessions then InstallOutcome(s, Failure(NotFound))
      else if SessionExpires(s.sessions[sid], now) then OverdueReply(s, sid, now)
      else if s.sessions[sid].status != InstallApproved then InstallOutcome(s, Failure(InvalidTransition))
      else PutSession(s, sid, s.sessions[sid], true)
  }

  // ---------- Calls and runs ----------

  function ApplyRequest(s: Items, op: RequestOp, now: Time): RequestOutcome {
    match op
    case Create(input, id, nonce) => DoCreate(s, input, id, nonce, now)
    case Get(id) => DoGet(s, id, now)
    case ListPending(device, readings) => DoListPending(s, device, readings, now)
    case Decide(id, approved) => DoDecide(s, id, approved, now)
    case Report(id, result, reason) => DoReport(s, id, result, reason, now)
  }

  function ApplyInstall(s: Installs, op: InstallOp, now: Time): InstallOutcome {
    match op
    case Mint(input, id, digest) => DoMint(s, input, id, digest, now)
    case GetSession(id) => DoGetSession(s, id, now)
    case Identify(id, connector, device) => DoIdentify(s, id, connector, device, now)
    case Approve(id, approved) => DoApprove(s, id, approved, now)
    case InstallReport(id, outcome, reason) => DoInstallReport(s, id, outcome, reason, now)
    case Redeem(digest) => DoRedeem(s, digest, now)
  }

  function Apply(s: State, op: Op, now: Time): Outcome {
    match op
    case OnRequest(o) =>
      var r := ApplyRequest(s.items, o, now);
      Outcome(s.(items := r.items), r.reply)
    case OnInstall(o) =>
      var r := ApplyInstall(s.installs, o, now);
      Outcome(s.(installs := r.installs), r.reply)
  }

  /** A call made when the clock shows `now`, and the clock when it returns. */
  datatype Call = Call(op: Op, now: Time, done: Time)

  /** The state after the first `n` calls. */
  function After(s: State, calls: seq<Call>, n: nat): State
    requires n <= |calls|
    decreases n, 0
  {
    if n == 0 then s else Step(s, calls, n - 1).state
  }

  /** State and reply of call number `n`. */
  function Step(s: State, calls: seq<Call>, n: nat): Outcome
    requires n < |calls|
    decreases n, 1
  {
    Apply(After(s, calls, n), calls[n].op, calls[n].now)
  }
}
