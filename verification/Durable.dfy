/** The durable store: tables in memory, a file that is replaced after each successful call,
    writes that may fail, and crashes after which the file is read back. */
module Durable {
  import opened Wrappers
  import opened Text
  import opened Requests
  import opened StoreInvariants
  import opened Expiry

  /** The running process's tables, and the state file, if there is one. */
  datatype Store = Store(mem: State, file: Option<State>)

  const FRESH := Store(EMPTY, None)

  /** What a new process would load. */
  function OnDisk(d: Store): State {
    if d.file.Some? then d.file.value else EMPTY
  }

  function Reopen(d: Store): Store {
    Store(OnDisk(d), d.file)
  }

  datatype StoreOutcome = StoreOutcome(store: Store, reply: Reply)

  /** The durable wrapper hides the session that comes with an expiry error. */
  function Bare(r: Reply): Reply {
    if r.ExpiredSession? then Failure(RequestExpired) else r
  }

  /** One call: an error is returned without writing; a failed write is returned as an error
      (reads ignore it), and memory is not rolled back. */
  function Serve(d: Store, op: Op, now: Time, writeOk: bool): StoreOutcome {
    var r := Apply(d.mem, op, now);
    if !r.reply.Success() then StoreOutcome(Store(r.state, d.file), Bare(r.reply))
    else if writeOk then StoreOutcome(Store(r.state, Some(r.state)), r.reply)
    else StoreOutcome(Store(r.state, d.file), if ReadsOnly(op) then r.reply else Failure(WriteFailed))
  }

  datatype Event = Served(call: Call, writeOk: bool) | Crashed

  function Next(d: Store, e: Event): Store {
    match e
    case Served(call, writeOk) => Serve(d, call.op, call.now, writeOk).store
    case Crashed => Reopen(d)
  }

  function At(events: seq<Event>, n: nat): Store
    requires n <= |events|
  {
    if n == 0 then FRESH else Next(At(events, n - 1), events[n - 1])
  }

  function ReplyOf(events: seq<Event>, n: nat): Reply
    requires n < |events| && events[n].Served?
  {
    Serve(At(events, n), events[n].call.op, events[n].call.now, events[n].writeOk).reply
  }

  /** Integrity of memory and file, in every state reachable through failed writes, crashes,
      reopenings, clocks that jump and identifiers that collide. */
  lemma {:induction false} IntegrityOnDisk(events: seq<Event>, n: nat)
    requires n <= |events|
    ensures Integrity(At(events, n).mem) && Integrity(OnDisk(At(events, n)))
  {
    if n > 0 {
      IntegrityOnDisk(events, n - 1);
      var e := events[n - 1];
      if e.Served? { IntegrityKept(At(events, n - 1).mem, e.call.op, e.call.now); }
    }
  }

  // ---------- Evidence behind a status ----------

  /** The call took effect in memory: it succeeded, or only its write failed. */
  predicate TookEffect(events: seq<Event>, i: nat)
    requires i < |events| && events[i].Served?
  {
    ReplyOf(events, i).Success() || (!events[i].writeOk && ReplyOf(events, i) == Failure(WriteFailed))
  }

  predicate ApprovedBy(events: seq<Event>, i: nat, r: ConnectionRequest, id: string)
    requires i < |events|
  {
    events[i].Served? && ApprovesOf(events[i].call.op, id) && TookEffect(events, i) && events[i].call.now <= r.expiresAt
  }

  predicate ConnectedBy(events: seq<Event>, i: nat, r: ConnectionRequest, id: string)
    requires i < |events|
  {
    events[i].Served? && ConnectsOf(events[i].call.op, id, r.reason) && TookEffect(events, i)
    && events[i].call.now <= r.expiresAt
  }

  /** An approved request was approved, a connected one approved and then connected, each by a
      call that came before event `n` and read the clock no later than the request's expiry. */
  ghost predicate Backed(events: seq<Event>, n: nat, id: string, r: ConnectionRequest)
    requires n <= |events|
  {
    && (r.status == Approved ==> exists i :: 0 <= i < n && ApprovedBy(events, i, r, id))
    && (r.status == Connected ==> exists i, j :: 0 <= i < j < n && ApprovedBy(events, i, r, id) && ConnectedBy(events, j, r, id))
  }

  ghost predicate AllBacked(events: seq<Event>, n: nat, s: State)
    requires n <= |events|
  {
    forall id :: id in s.items ==> Backed(events, n, id, s.items[id])
  }

  lemma CallKeepsBacked(events: seq<Event>, n: nat)
    requires n < |events| && events[n].Served? && AllBacked(events, n, At(events, n).mem)
    ensures AllBacked(events, n + 1, At(events, n + 1).mem)
  {
    var before, after, call := At(events, n).mem.items, At(events, n + 1).mem.items, events[n].call;
    hide At, ApprovedBy, ConnectedBy;
    assert after == Apply(At(events, n).mem, call.op, call.now).state.items by { MemoryAfter(events, n); }
    forall id | id in after ensures Backed(events, n + 1, id, after[id]) {
      if !(id in before && before[id] == after[id]) && call.op.OnRequest? {
        if after[id].status == Approved {
          ApprovalStep(before, call.op.request, call.now, id);
          assert ApprovedBy(events, n, after[id], id) by { NowApproves(events, n, id, after[id]); }
        } else if after[id].status == Connected {
          ConnectionStep(before, call.op.request, call.now, id);
          var i :| 0 <= i < n && ApprovedBy(events, i, before[id], id);
          assert ApprovedBy(events, i, after[id], id) by { SameExpiry(events, i, id, before[id], after[id]); }
          assert ConnectedBy(events, n, after[id], id) by { NowConnects(events, n, id, after[id]); }
        }
      }
    }
  }

  lemma MemoryAfter(events: seq<Event>, n: nat)
    requires n < |events| && events[n].Served?
    ensures At(events, n + 1).mem == Apply(At(events, n).mem, events[n].call.op, events[n].call.now).state
  {
  }

  lemma SameExpiry(events: seq<Event>, i: nat, id: string, r: ConnectionRequest, r': ConnectionRequest)
    requires i < |events| && ApprovedBy(events, i, r, id) && r.expiresAt == r'.expiresAt
    ensures ApprovedBy(events, i, r', id)
  {
  }

  lemma NowApproves(events: seq<Event>, n: nat, id: string, r: ConnectionRequest)
    requires n < |events| && events[n].Served? && ApprovesOf(events[n].call.op, id) && events[n].call.now <= r.expiresAt
    requires Apply(At(events, n).mem, events[n].call.op, events[n].call.now).reply.Success()
    ensures ApprovedBy(events, n, r, id)
  {
  }

  lemma NowConnects(events: seq<Event>, n: nat, id: string, r: ConnectionRequest)
    requires n < |events| && events[n].Served? && ConnectsOf(events[n].call.op, id, r.reason) && events[n].call.now <= r.expiresAt
    requires Apply(At(events, n).mem, events[n].call.op, events[n].call.now).reply.Success()
    ensures ConnectedBy(events, n, r, id)
  {
  }

  lemma BackedLater(events: seq<Event>, n: nat, s: State)
    requires n < |events| && AllBacked(events, n, s)
    ensures AllBacked(events, n + 1, s)
  {
    hide ApprovedBy, ConnectedBy;
    forall id | id in s.items ensures Backed(events, n + 1, id, s.items[id]) {
      assert Backed(events, n, id, s.items[id]);
    }
  }

  /** In memory and on disk, through failed writes and crashes: what is approved or connected
      has its calls in the trace. */
  lemma {:induction false} EvidenceOnDisk(events: seq<Event>, n: nat)
    requires n <= |events|
    ensures AllBacked(events, n, At(events, n).mem) && AllBacked(events, n, OnDisk(At(events, n)))
  {
    if n > 0 {
      hide AllBacked;
      EvidenceOnDisk(events, n - 1);
      BackedLater(events, n - 1, At(events, n - 1).mem);
      BackedLater(events, n - 1, OnDisk(At(events, n - 1)));
      if events[n - 1].Served? { CallKeepsBacked(events, n - 1); }
    } else {
      assert At(events, 0) == FRESH;
    }
  }

  /** That the call succeeded would be too much to say: when the write of an approval fails,
      the caller is told so, yet the request stays approved, and a later read saves it. */
  lemma RefusedApprovalStands(d: Store, id: string, now: Time, later: Time)
    requires id in d.mem.items && d.mem.items[id].status == Pending
    requires now <= later <= d.mem.items[id].expiresAt
    ensures var r := Serve(d, OnRequest(Decide(id, true)), now, false);
            var s := Serve(r.store, OnRequest(Get(id)), later, true);
            && r.reply == Failure(WriteFailed)
            && s.reply == RequestReply(d.mem.items[id].(status := Approved))
            && id in OnDisk(s.store).items && OnDisk(s.store).items[id].status == Approved
  {
  }

  // ---------- At-most-once redemption ----------

  /** A mint that is refused for its input draws no token. */
  predicate MintsDigest(op: Op, digest: string) {
    op.OnInstall? && op.install.Mint? && op.install.digest == digest && Mintable(op.install.input)
  }

  predicate MintsAt(events: seq<Event>, i: nat, digest: string)
    requires i < |events|
  {
    events[i].Served? && MintsDigest(events[i].call.op, digest)
  }

  /** At most one call draws this token. */
  ghost predicate FreshDigest(events: seq<Event>, digest: string) {
    forall i, j :: 0 <= i < j < |events| ==> !(MintsAt(events, i, digest) && MintsAt(events, j, digest))
  }

  predicate RedeemsDigest(op: Op, digest: string) {
    op.OnInstall? && op.install == Redeem(digest)
  }

  /** Could this token still be redeemed, now or after a crash? */
  predicate Live(d: Store, digest: string) {
    digest in d.mem.installs.tokens || digest in OnDisk(d).installs.tokens
  }

  /** Of the first n events, those that minted this digest, whether or not the write succeeded. */
  function MintCount(events: seq<Event>, n: nat, digest: string): nat
    requires n <= |events|
  {
    if n == 0 then 0
    else MintCount(events, n - 1, digest)
         + if MintsAt(events, n - 1, digest) then 1 else 0
  }

  /** Of the first n events, the redemptions of this digest that reported success. */
  function RedeemCount(events: seq<Event>, n: nat, digest: string): nat
    requires n <= |events|
  {
    if n == 0 then 0
    else RedeemCount(events, n - 1, digest)
         + if RedeemedAt(events, n - 1, digest) then 1 else 0
  }

  lemma TokensOnlyFromMint(s: Installs, op: InstallOp, now: Time, d: string)
    requires d in ApplyInstall(s, op, now).installs.tokens
    ensures (d in s.tokens && s.tokens[d] == ApplyInstall(s, op, now).installs.tokens[d])
            || (op.Mint? && op.digest == d && Mintable(op.input) && ApplyInstall(s, op, now).installs.tokens[d] == op.id)
  {
  }

  /** A successful redemption needs the token and leaves none of its session. */
  lemma RedeemConsumes(s: Installs, digest: string, now: Time)
    requires GoodInstalls(s) && DoRedeem(s, digest, now).reply.Success()
    ensures digest in s.tokens && DoRedeem(s, digest, now).reply.session.id == s.tokens[digest]
    ensures forall d :: d in DoRedeem(s, digest, now).installs.tokens ==> s.tokens[d] != s.tokens[digest]
    ensures digest !in DoRedeem(s, digest, now).installs.tokens
  {
    assert GoodToken(s, digest);
  }

  lemma ServeKeepsDead(d: Store, op: Op, now: Time, writeOk: bool, digest: string)
    requires !Live(d, digest) && !MintsDigest(op, digest)
    ensures !Live(Serve(d, op, now, writeOk).store, digest)
  {
    if op.OnInstall? && digest in ApplyInstall(d.mem.installs, op.install, now).installs.tokens {
      TokensOnlyFromMint(d.mem.installs, op.install, now, digest);
    }
  }

  /** Conservation across crashes: a digest never has more successful redemptions, counting
      one still possible in memory or on disk, than mints. No freshness is assumed. */
  lemma {:induction false} RedemptionsNeverExceedMints(events: seq<Event>, n: nat, digest: string)
    requires n <= |events|
    ensures RedeemCount(events, n, digest) + (if Live(At(events, n), digest) then 1 else 0) <= MintCount(events, n, digest)
  {
    if n > 0 {
      RedemptionsNeverExceedMints(events, n - 1, digest);
      IntegrityOnDisk(events, n - 1);
      var d, e := At(events, n - 1), events[n - 1];
      if e.Served? {
        if !Live(d, digest) && !MintsDigest(e.call.op, digest) {
          ServeKeepsDead(d, e.call.op, e.call.now, e.writeOk, digest);
        }
        if RedeemsDigest(e.call.op, digest) && Apply(d.mem, e.call.op, e.call.now).reply.Success() {
          RedeemConsumes(d.mem.installs, digest, e.call.now);
        }
      }
    }
  }

  predicate RedeemedAt(events: seq<Event>, n: nat, digest: string)
    requires n < |events|
  {
    events[n].Served? && RedeemsDigest(events[n].call.op, digest) && ReplyOf(events, n).Success()
  }

  lemma {:induction false} RedeemCountGrows(events: seq<Event>, m: nat, n: nat, digest: string)
    requires m <= n <= |events|
    ensures RedeemCount(events, m, digest) <= RedeemCount(events, n, digest)
  {
    hide RedeemedAt;
    if m < n { RedeemCountGrows(events, m, n - 1, digest); }
  }

  lemma {:induction false} MintCountAtMostOne(events: seq<Event>, n: nat, digest: string)
    requires n <= |events|
    requires FreshDigest(events, digest)
    ensures MintCount(events, n, digest) <= 1
    ensures MintCount(events, n, digest) == 0 <==> forall i :: 0 <= i < n ==> !MintsAt(events, i, digest)
  {
    if n > 0 { MintCountAtMostOne(events, n - 1, digest); }
  }

  /** A token minted at most once is redeemed with success at most once, whatever writes fail
      and wherever the process crashes. */
  lemma RedeemedAtMostOnce(events: seq<Event>, digest: string, i: nat, j: nat)
    requires FreshDigest(events, digest)
    requires i < j < |events|
    ensures !(RedeemedAt(events, i, digest) && RedeemedAt(events, j, digest))
  {
    hide RedeemedAt, MintsAt, Live;
    RedemptionsNeverExceedMints(events, j + 1, digest);
    MintCountAtMostOne(events, j + 1, digest);
    RedeemCountGrows(events, i + 1, j, digest);
  }

  // ---------- One redemption per session ----------

  function MemTokens(s: State, sid: string): set<string> {
    set d | d in s.installs.tokens && s.installs.tokens[d] == sid
  }

  /** The tokens that lead to a session, now or after a crash. */
  function LiveTokens(d: Store, sid: string): set<string> {
    MemTokens(d.mem, sid) + MemTokens(OnDisk(d), sid)
  }

  function SessionMints(events: seq<Event>, n: nat, sid: string): nat
    requires n <= |events|
  {
    if n == 0 then 0
    else SessionMints(events, n - 1, sid)
         + if events[n - 1].Served? && MintsSession(events[n - 1].call.op, sid) then 1 else 0
  }

  predicate RedeemedFor(events: seq<Event>, n: nat, sid: string)
    requires n < |events|
  {
    && events[n].Served? && events[n].call.op.OnInstall? && events[n].call.op.install.Redeem?
    && ReplyOf(events, n).SessionReply? && ReplyOf(events, n).session.id == sid
  }

  function SessionRedemptions(events: seq<Event>, n: nat, sid: string): nat
    requires n <= |events|
  {
    if n == 0 then 0
    else SessionRedemptions(events, n - 1, sid) + if RedeemedFor(events, n - 1, sid) then 1 else 0
  }

  lemma FewerTokens(a: set<string>, b: set<string>)
    requires a <= b
    ensures |a| <= |b|
  {
    assert b == a + (b - a);
  }

  lemma ServeTokens(d: Store, op: Op, now: Time, writeOk: bool, sid: string)
    ensures var after := LiveTokens(Serve(d, op, now, writeOk).store, sid);
            after <= LiveTokens(d, sid) + if MintsSession(op, sid) then {op.install.digest} else {}
  {
    forall t | t in MemTokens(Apply(d.mem, op, now).state, sid)
      ensures t in MemTokens(d.mem, sid) || (MintsSession(op, sid) && t == op.install.digest) {
      if op.OnInstall? { TokensOnlyFromMint(d.mem.installs, op.install, now, t); }
    }
  }

  lemma CrashTokens(d: Store, sid: string)
    ensures LiveTokens(Reopen(d), sid) <= LiveTokens(d, sid)
  {
  }

  lemma RedeemedForClears(events: seq<Event>, n: nat, sid: string)
    requires n < |events| && RedeemedFor(events, n, sid)
    ensures LiveTokens(At(events, n + 1), sid) == {} && |LiveTokens(At(events, n), sid)| > 0
  {
    IntegrityOnDisk(events, n);
    var digest := events[n].call.op.install.digest;
    RedeemConsumes(At(events, n).mem.installs, digest, events[n].call.now);
    assert digest in LiveTokens(At(events, n), sid);
  }

  /** Per session, tokens still live plus successful redemptions never exceed its mints: one,
      when session ids are fresh. Expiry, denial and results can only lower the left side. */
  lemma {:induction false} OneRedemptionPerSession(events: seq<Event>, n: nat, sid: string)
    requires n <= |events|
    ensures |LiveTokens(At(events, n), sid)| + SessionRedemptions(events, n, sid) <= SessionMints(events, n, sid)
  {
    hide Serve, RedeemedFor, Reopen;
    if n == 0 {
      assert LiveTokens(At(events, 0), sid) == {};
    } else {
      hide LiveTokens, MintsSession;
      OneRedemptionPerSession(events, n - 1, sid);
      var d, e := At(events, n - 1), events[n - 1];
      var before, after := LiveTokens(d, sid), LiveTokens(At(events, n), sid);
      if RedeemedFor(events, n - 1, sid) {
        RedeemedForClears(events, n - 1, sid);
      } else if e.Crashed? {
        CrashTokens(d, sid);
        FewerTokens(after, before);
      } else {
        ServeTokens(d, e.call.op, e.call.now, e.writeOk, sid);
        if MintsSession(e.call.op, sid) {
          MintsDigestOf(e.call.op, sid);
          FewerTokens(after, before + {e.call.op.install.digest});
        } else {
          FewerTokens(after, before);
        }
      }
    }
  }

  lemma MintsDigestOf(op: Op, sid: string)
    requires MintsSession(op, sid)
    ensures op.OnInstall? && op.install.Mint?
  {
  }

  /** With a fresh session id: at most one token or one successful redemption, ever. */
  lemma {:induction false} FreshSessionMints(events: seq<Event>, n: nat, sid: string)
    requires n <= |events|
    requires forall i, j :: 0 <= i < j < |events| && events[i].Served? && events[j].Served? ==>
               !(MintsSession(events[i].call.op, sid) && MintsSession(events[j].call.op, sid))
    ensures SessionMints(events, n, sid) <= 1
    ensures SessionMints(events, n, sid) == 0 <==>
              forall i :: 0 <= i < n && events[i].Served? ==> !MintsSession(events[i].call.op, sid)
    ensures |LiveTokens(At(events, n), sid)| + SessionRedemptions(events, n, sid) <= 1
  {
    hide LiveTokens;
    OneRedemptionPerSession(events, n, sid);
    if n > 0 { FreshSessionMints(events, n - 1, sid); }
  }

  // ---------- Recovery ----------

  /** The reference: one process that never crashes and keeps its tables in memory. */
  function Steady(events: seq<Event>, n: nat): State
    requires n <= |events|
  {
    if n == 0 then EMPTY
    else if events[n - 1].Served? then Apply(Steady(events, n - 1), events[n - 1].call.op, events[n - 1].call.now).state
    else Steady(events, n - 1)
  }

  function SteadyReply(events: seq<Event>, n: nat): Reply
    requires n < |events| && events[n].Served?
  {
    Apply(Steady(events, n), events[n].call.op, events[n].call.now).reply
  }

  ghost predicate ForwardEvents(events: seq<Event>) {
    && (forall i :: 0 <= i < |events| && events[i].Served? ==> WellTimed(events[i].call))
    && (forall i, j :: 0 <= i < j < |events| && events[i].Served? && events[j].Served? ==>
          events[i].call.done <= events[j].call.now)
  }

  /** The clock has not passed t after n events. */
  ghost predicate NotBefore(events: seq<Event>, n: nat, t: Time)
    requires n <= |events|
  {
    forall i :: 0 <= i < n && events[i].Served? ==> events[i].call.done <= t
  }

  ghost predicate FreshIds(events: seq<Event>) {
    forall i, j :: 0 <= i < j < |events| && events[i].Served? && events[j].Served?
                   && Mints(events[i].call) && Mints(events[j].call) ==>
                     events[i].call.op.install.id != events[j].call.op.install.id
  }

  /** Writes succeed; those after a mere read need not. */
  ghost predicate WritesLand(events: seq<Event>) {
    forall i :: 0 <= i < |events| && events[i].Served? ==> events[i].writeOk || ReadsOnly(events[i].call.op)
  }

  lemma {:induction false} SteadyIntegrity(events: seq<Event>, n: nat)
    requires n <= |events|
    ensures Integrity(Steady(events, n))
  {
    if n > 0 {
      SteadyIntegrity(events, n - 1);
      if events[n - 1].Served? { IntegrityKept(Steady(events, n - 1), events[n - 1].call.op, events[n - 1].call.now); }
    }
  }

  lemma {:induction false} SteadyIdsAreNew(events: seq<Event>, n: nat, k: nat)
    requires n <= k < |events| && FreshIds(events) && events[k].Served? && Mints(events[k].call)
    ensures events[k].call.op.install.id !in Steady(events, n).installs.sessions
  {
    if n > 0 {
      SteadyIdsAreNew(events, n - 1, k);
      var e, id := events[n - 1], events[k].call.op.install.id;
      if e.Served? && e.call.op.OnInstall? && id in Steady(events, n).installs.sessions {
        NewSessionsAreMinted(Steady(events, n - 1).installs, e.call.op.install, e.call.now, id);
      }
    }
  }

  /** One call keeps memory and file alike to the reference, and answers like it, if it brings
      back the same tokens in both. */
  lemma ServeLikeSteady(d: Store, ref: State, call: Call, writeOk: bool)
    requires Integrity(d.mem) && Integrity(ref) && WellTimed(call) && (writeOk || ReadsOnly(call.op))
    requires Revived(d.mem, call) == Revived(ref, call)
    requires Alike(d.mem, ref, call.now) && Alike(OnDisk(d), ref, call.now)
    ensures var r, next := Serve(d, call.op, call.now, writeOk), Apply(ref, call.op, call.now);
            && View(r.reply) == View(next.reply)
            && Alike(r.store.mem, next.state, call.done) && Alike(OnDisk(r.store), next.state, call.done)
  {
    hide Integrity, Revived;
    AlikeStep(d.mem, ref, call);
    var r := Serve(d, call.op, call.now, writeOk);
    if r.store.file == d.file && Quiet(d.mem, call.op, call.now) {
      QuietSettles(d.mem, call);
      AlikeLater(OnDisk(d), ref, call.now, call.done);
      AlikeLater(d.mem, ref, call.now, call.done);
      assert Alike(OnDisk(r.store), r.store.mem, call.done);
    }
  }

  /** Each of the first `n` calls brings back the same tokens as it would without the crashes. */
  ghost predicate SameRevivals(events: seq<Event>, n: nat)
    requires n <= |events|
  {
    forall i :: 0 <= i < n && events[i].Served? ==> RevivesSame(events, i)
  }

  ghost predicate RevivesSame(events: seq<Event>, i: nat)
    requires i < |events| && events[i].Served?
  {
    Revived(At(events, i).mem, events[i].call) == Revived(Steady(events, i), events[i].call)
  }

  /** After any prefix, with crashes anywhere, memory and file agree up to expiry with the
      process that never crashed ... */
  lemma {:induction false} RecoveryModuloExpiry(events: seq<Event>, n: nat, t: Time)
    requires n <= |events| && ForwardEvents(events) && WritesLand(events) && NotBefore(events, n, t)
    requires SameRevivals(events, n)
    ensures Alike(At(events, n).mem, Steady(events, n), t)
    ensures Alike(OnDisk(At(events, n)), Steady(events, n), t)
    decreases n, 0
  {
    if n > 0 {
      hide RevivesSame, Alike;
      var e := events[n - 1];
      if e.Served? {
        RecoveredReply(events, n - 1);
        AlikeLater(At(events, n).mem, Steady(events, n), e.call.done, t);
        AlikeLater(OnDisk(At(events, n)), Steady(events, n), e.call.done, t);
      } else {
        RecoveryModuloExpiry(events, n - 1, t);
      }
    }
  }

  /** ... so every call succeeds exactly when it would have without the crashes, with the
      same value. */
  lemma {:induction false} RecoveredReply(events: seq<Event>, n: nat)
    requires n < |events| && ForwardEvents(events) && WritesLand(events) && events[n].Served?
    requires SameRevivals(events, n + 1)
    ensures View(ReplyOf(events, n)) == View(SteadyReply(events, n))
    ensures Alike(At(events, n + 1).mem, Steady(events, n + 1), events[n].call.done)
    ensures Alike(OnDisk(At(events, n + 1)), Steady(events, n + 1), events[n].call.done)
    decreases n, 1
  {
    assert RevivesSame(events, n);
    hide Alike;
    RecoveryModuloExpiry(events, n, events[n].call.now);
    IntegrityOnDisk(events, n);
    SteadyIntegrity(events, n);
    ServeLikeSteady(At(events, n), Steady(events, n), events[n].call, events[n].writeOk);
  }

  /** Fresh session ids bring nothing back, so recovery holds in every such run. */
  lemma {:induction false} FreshIdsRecover(events: seq<Event>, n: nat)
    requires n <= |events| && ForwardEvents(events) && FreshIds(events) && WritesLand(events)
    ensures SameRevivals(events, n)
  {
    if n > 0 {
      hide Alike, Revived;
      FreshIdsRecover(events, n - 1);
      if events[n - 1].Served? {
        var call := events[n - 1].call;
        RecoveryModuloExpiry(events, n - 1, call.now);
        IntegrityOnDisk(events, n - 1);
        SteadyIntegrity(events, n - 1);
        if Mints(call) {
          SteadyIdsAreNew(events, n - 1, n - 1);
          AlikeSessions(At(events, n - 1).mem, Steady(events, n - 1), call.now);
        }
        UnusedIdRevivesNothing(At(events, n - 1).mem, call);
        UnusedIdRevivesNothing(Steady(events, n - 1), call);
        assert RevivesSame(events, n - 1);
      }
    }
  }

  /** Error codes too: the reply is that of the process that never crashed if and only if the
      call finds its session overdue in both or in neither. */
  lemma RecoveredErrorIff(events: seq<Event>, n: nat)
    requires n < |events| && ForwardEvents(events) && WritesLand(events) && events[n].Served?
    requires SameRevivals(events, n)
    ensures var call := events[n].call;
            ReplyOf(events, n) == Bare(SteadyReply(events, n))
            <==> (FindsOverdue(At(events, n).mem, call.op, call.now) <==> FindsOverdue(Steady(events, n), call.op, call.now))
  {
    hide At, Steady, Apply, Settle, Integrity, FindsOverdue, SameRevivals;
    var call := events[n].call;
    RecoveryModuloExpiry(events, n, call.now);
    IntegrityOnDisk(events, n);
    SteadyIntegrity(events, n);
    SweptReplyIff(At(events, n).mem, call);
    SweptReplyIff(Steady(events, n), call);
  }

  /** A read finds a session overdue, its write is lost in a crash, and the session is
      approved too late. */
  const LATE_AFTER_CRASH := [
    Served(Call(OnInstall(Mint(ASKED, "s", "old")), 0, 0), true),
    Served(Call(OnInstall(GetSession("s")), 15, 15), false),
    Crashed,
    Served(Call(OnInstall(Approve("s", true)), 20, 20), true)]

  /** The recovered store says expired; without the crash the session had failed already. */
  lemma ErrorDependsOnCrash()
    ensures ForwardEvents(LATE_AFTER_CRASH) && WritesLand(LATE_AFTER_CRASH)
    ensures ReplyOf(LATE_AFTER_CRASH, 3) == Failure(RequestExpired)
    ensures SteadyReply(LATE_AFTER_CRASH, 3) == Failure(InvalidTransition)
  {
    var failed := State(map[], Installs(map["s" := FIRST.(status := InstallFailed, reason := "Expired")], map[]));
    assert Apply(EMPTY, LATE_AFTER_CRASH[0].call.op, 0) == Outcome(ONE, SessionReply(FIRST));
    assert Apply(ONE, LATE_AFTER_CRASH[1].call.op, 15).state == failed by { OverdueRead(); }
    assert Apply(ONE, LATE_AFTER_CRASH[3].call.op, 20).reply.ExpiredSession?;
    assert Apply(failed, LATE_AFTER_CRASH[3].call.op, 20).reply == Failure(InvalidTransition);
    hide Apply;
    assert At(LATE_AFTER_CRASH, 0) == FRESH;
    assert At(LATE_AFTER_CRASH, 1) == Store(ONE, Some(ONE));
    assert At(LATE_AFTER_CRASH, 2).file == Some(ONE);
    assert At(LATE_AFTER_CRASH, 3) == Store(ONE, Some(ONE));
    assert Steady(LATE_AFTER_CRASH, 0) == EMPTY;
    assert Steady(LATE_AFTER_CRASH, 1) == ONE;
    assert Steady(LATE_AFTER_CRASH, 2) == failed;
    assert Steady(LATE_AFTER_CRASH, 3) == failed;
  }

  // ---------- Exactly when an id collision breaks it ----------

  /** After each of the first `n` calls, memory is alike to the process that never crashed. */
  ghost predicate RecoversThroughout(events: seq<Event>, n: nat)
    requires n <= |events|
  {
    forall i :: 0 <= i < n && events[i].Served? ==> Alike(At(events, i + 1).mem, Steady(events, i + 1), events[i].call.done)
  }

  /** Whole runs, with any ids: the crashes cannot be told from memory if and only if every
      mint brings back the same tokens as it would without them. */
  lemma {:induction false} RecoversIff(events: seq<Event>, n: nat)
    requires n <= |events| && ForwardEvents(events) && WritesLand(events)
    ensures RecoversThroughout(events, n) <==> SameRevivals(events, n)
  {
    if n > 0 {
      hide Alike, RevivesSame, Apply, ForwardEvents, WritesLand, At, Steady;
      RecoversIff(events, n - 1);
      var e := events[n - 1];
      assert RecoversThroughout(events, n) == (RecoversThroughout(events, n - 1)
        && (e.Served? ==> Alike(At(events, n).mem, Steady(events, n), e.call.done)));
      assert SameRevivals(events, n) == (SameRevivals(events, n - 1) && (e.Served? ==> RevivesSame(events, n - 1)));
      if e.Served? {
        if SameRevivals(events, n) {
          RecoveredReply(events, n - 1);
        } else if SameRevivals(events, n - 1) {
          OtherRevivalsPart(events, n - 1);
        }
      }
    }
  }

  lemma OtherRevivalsPart(events: seq<Event>, n: nat)
    requires n < |events| && ForwardEvents(events) && WritesLand(events)
    requires events[n].Served? && SameRevivals(events, n) && !RevivesSame(events, n)
    ensures !Alike(At(events, n + 1).mem, Steady(events, n + 1), events[n].call.done)
  {
    var mem, ref, call := At(events, n).mem, Steady(events, n), events[n].call;
    RecoveryModuloExpiry(events, n, call.now);
    IntegrityOnDisk(events, n);
    SteadyIntegrity(events, n);
    assert Mints(call);
    hide ApplyInstall, SettleInstalls, GoodInstalls, GoodItems, RevivedTokens;
    MintAgreesIff(mem.installs, ref.installs, call.op.install, call.now, call.done);
  }

  /** A read deletes an overdue token, its write is lost, a crash brings the token back, and
      then its session id is drawn again. */
  const LOST_DELETION := [
    Served(Call(OnInstall(Mint(ASKED, "s", "old")), 0, 0), true),
    Served(Call(OnInstall(GetSession("s")), 15, 15), false),
    Crashed,
    Served(Call(OnInstall(Mint(ASKED, "s", "new")), 20, 20), true),
    Served(Call(OnInstall(Approve("s", true)), 21, 21), true),
    Served(Call(OnInstall(Redeem("old")), 22, 22), true)]

  /** The old token redeems the new session after the crash, and would not have without it. */
  lemma CrashRevivesToken()
    ensures ForwardEvents(LOST_DELETION) && WritesLand(LOST_DELETION)
    ensures ReplyOf(LOST_DELETION, 5) == SessionReply(APPROVED)
    ensures SteadyReply(LOST_DELETION, 5) == Failure(NotFound)
    ensures !SameRevivals(LOST_DELETION, 6)
  {
    WithCrash();
    WithoutCrash();
    hide At, Steady, Apply, Alike;
    if SameRevivals(LOST_DELETION, 6) {
      RecoveredReply(LOST_DELETION, 5);
    }
  }

  lemma WithCrash()
    ensures ReplyOf(LOST_DELETION, 5) == SessionReply(APPROVED)
  {
    ReuseLazily();
    FirstMint();
    hide Apply, Step, After;
    assert At(LOST_DELETION, 2).file == Some(ONE);
    assert At(LOST_DELETION, 3) == Store(ONE, Some(ONE));
    assert At(LOST_DELETION, 4) == Store(TWO, Some(TWO));
    assert At(LOST_DELETION, 5) == Store(THREE, Some(THREE));
  }

  lemma FirstMint()
    ensures At(LOST_DELETION, 1) == Store(ONE, Some(ONE))
    ensures Apply(ONE, LOST_DELETION[1].call.op, 15).reply.Success()
  {
    assert At(LOST_DELETION, 0) == FRESH;
  }

  lemma WithoutCrash()
    ensures SteadyReply(LOST_DELETION, 5) == Failure(NotFound)
  {
    var failed := State(map[], Installs(map["s" := FIRST.(status := InstallFailed, reason := "Expired")], map[]));
    var second := State(map[], Installs(map["s" := SECOND], map["new" := "s"]));
    var third := State(map[], Installs(map["s" := APPROVED], map["new" := "s"]));
    assert Apply(EMPTY, LOST_DELETION[0].call.op, 0).state == ONE;
    assert Apply(ONE, LOST_DELETION[1].call.op, 15).state == failed by { OverdueRead(); }
    assert Apply(failed, LOST_DELETION[3].call.op, 20).state == second by { SecondMint(); }
    assert Apply(second, LOST_DELETION[4].call.op, 21).state == third by { SecondApproved(); }
    assert Apply(third, LOST_DELETION[5].call.op, 22).reply == Failure(NotFound);
    hide Apply;
    assert Steady(LOST_DELETION, 0) == EMPTY;
    assert Steady(LOST_DELETION, 1) == ONE;
    assert Steady(LOST_DELETION, 2) == failed;
    assert Steady(LOST_DELETION, 3) == failed;
    assert Steady(LOST_DELETION, 4) == second;
    assert Steady(LOST_DELETION, 5) == third;
  }

  lemma OverdueRead()
    ensures DoGetSession(ONE.installs, "s", 15).installs
         == Installs(map["s" := FIRST.(status := InstallFailed, reason := "Expired")], map[])
  {
    assert DropTokens(map["old" := "s"], "s") == map[];
  }

  lemma SecondMint()
    ensures var failed := Installs(map["s" := FIRST.(status := InstallFailed, reason := "Expired")], map[]);
            DoMint(failed, ASKED, "s", "new", 20).installs == Installs(map["s" := SECOND], map["new" := "s"])
  {
  }

  lemma SecondApproved()
    ensures DoApprove(Installs(map["s" := SECOND], map["new" := "s"]), "s", true, 21).installs
         == Installs(map["s" := APPROVED], map["new" := "s"])
  {
    hide DropTokens;
    assert map["s" := SECOND]["s" := APPROVED] == map["s" := APPROVED];
  }

  /** Why writes must land: a redemption whose write fails reports failure and uses the token
      up in memory, yet the file still honours it; a crash makes it redeemable again. */
  lemma FailedWriteDiverges(d: Store, digest: string, now: Time)
    requires Integrity(d.mem) && d.file == Some(d.mem)
    requires Apply(d.mem, OnInstall(Redeem(digest)), now).reply.Success()
    ensures var r := Serve(d, OnInstall(Redeem(digest)), now, false);
            && r.reply == Failure(WriteFailed)
            && Apply(r.store.mem, OnInstall(Redeem(digest)), now).reply == Failure(NotFound)
            && Apply(Reopen(r.store).mem, OnInstall(Redeem(digest)), now) == Apply(d.mem, OnInstall(Redeem(digest)), now)
            && !Alike(r.store.mem, OnDisk(r.store), now)
  {
    RedeemConsumes(d.mem.installs, digest, now);
    var r := Serve(d, OnInstall(Redeem(digest)), now, false);
    assert digest in Settle(OnDisk(r.store), now).installs.tokens;
  }

  /** Successful calls that leave the tables as they are: the session already has this
      identity, or the same entry is stored already. */
  predicate ChangesNothing(s: State, op: Op, now: Time) {
    match op
    case OnRequest(o) => o.Create? && Stores(s.items, o.id, ApplyRequest(s.items, o, now).reply)
    case OnInstall(o) =>
      || (o.Identify? && o.id in s.installs.sessions
          && s.installs.sessions[o.id].connectorId == TrimSpace(o.connector)
          && s.installs.sessions[o.id].deviceId == TrimSpace(o.device))
      || (o.Mint? && o.digest in s.installs.tokens && s.installs.tokens[o.digest] == o.id
          && o.id in s.installs.sessions && ApplyInstall(s.installs, o, now).reply == SessionReply(s.installs.sessions[o.id]))
  }

  predicate Stores(items: Items, id: string, reply: Reply) {
    id in items && reply == RequestReply(items[id])
  }

  /** A call that succeeds, does more than read, and cannot be saved: memory parts from the
      file exactly when the call changes anything at all. */
  lemma UnsavedParts(d: Store, op: Op, now: Time)
    requires Integrity(d.mem) && Alike(d.mem, OnDisk(d), now)
    requires Apply(d.mem, op, now).reply.Success() && !ReadsOnly(op)
    ensures var r := Serve(d, op, now, false);
            && r.reply == Failure(WriteFailed)
            && (Alike(r.store.mem, OnDisk(r.store), now) <==> ChangesNothing(d.mem, op, now))
  {
    match op
    case OnRequest(o) => UnsavedRequest(d.mem.items, o, now);
    case OnInstall(o) =>
      if o.Mint? { UnsavedMint(d.mem.installs, o, now); } else { UnsavedInstall(d.mem.installs, o, now); }
  }

  lemma UnsavedRequest(s: Items, op: RequestOp, now: Time)
    requires ApplyRequest(s, op, now).reply.Success() && !op.Get? && !op.ListPending?
    ensures SettleItems(ApplyRequest(s, op, now).items, now) == SettleItems(s, now)
            <==> op.Create? && Stores(s, op.id, ApplyRequest(s, op, now).reply)
  {
    RequestPuts(s, op, now);
    hide ApplyRequest;
    var r := ApplyRequest(s, op, now).reply.request;
    SettlePut(s, op.id, r, now);
    var swept := SettleItems(s, now);
    assert op.id in swept <==> op.id in s;
    if op.id in s {
      assert swept[op.id] == ExpireRequest(s[op.id], now);
      assert swept[op.id := r] == swept <==> swept[op.id] == r;
      assert r.status == Pending ==> (swept[op.id] == r <==> s[op.id] == r);
    } else {
      assert op.id in swept[op.id := r];
    }
  }

  /** A successful call on requests that does more than read puts one entry, pending exactly
      when it was created, and not the one that was there unless it was created. */
  lemma RequestPuts(s: Items, op: RequestOp, now: Time)
    requires ApplyRequest(s, op, now).reply.Success() && !op.Get? && !op.ListPending?
    ensures ApplyRequest(s, op, now).reply.RequestReply?
    ensures var r := ApplyRequest(s, op, now).reply.request;
            && ApplyRequest(s, op, now).items == s[op.id := r]
            && ExpireRequest(r, now) == r
            && (op.Create? ==> r.status == Pending)
            && (!op.Create? ==> op.id in s && ExpireRequest(s[op.id], now).status != r.status)
  {
  }

  lemma UnsavedMint(s: Installs, op: InstallOp, now: Time)
    requires GoodInstalls(s) && op.Mint? && ApplyInstall(s, op, now).reply.Success()
    ensures SettleInstalls(ApplyInstall(s, op, now).installs, now) == SettleInstalls(s, now)
            <==> ChangesNothing(State(map[], s), OnInstall(op), now)
  {
    var x := ApplyInstall(s, op, now).reply.session;
    MintAdds(s, op, now, now);
    hide ApplyInstall, GoodInstalls;
    AddedAgain(s, op.id, x, op.digest, now);
    hide SettleInstalls;
  }

  /** Adding a session and its token leaves the settled state as it is exactly when both were
      there already. */
  lemma AddedAgain(s: Installs, id: string, x: InstallSession, digest: string, now: Time)
    requires GoodInstalls(s) && x.status == Requested && !SessionExpires(x, now)
    ensures SettleInstalls(Add(s, id, x, digest), now) == SettleInstalls(s, now)
            <==> digest in s.tokens && s.tokens[digest] == id && id in s.sessions && s.sessions[id] == x
  {
    var t := Add(s, id, x, digest);
    SettleAddSessions(s, id, x, digest, now);
    SweptToken(s, now, digest);
    SweptAddToken(s, id, x, digest, now, digest);
    SweptSession(s, id, now);
    assert digest in SettleInstalls(t, now).tokens && SettleInstalls(t, now).tokens[digest] == id;
    assert SettleInstalls(t, now).sessions[id] == x;
    hide SettleInstalls, GoodInstalls;
    if digest in s.tokens && s.tokens[digest] == id && id in s.sessions && s.sessions[id] == x {
      assert t.sessions == s.sessions && t.tokens == s.tokens;
    }
  }

  lemma SweptSession(s: Installs, id: string, now: Time)
    ensures id in SettleInstalls(s, now).sessions <==> id in s.sessions
    ensures id in s.sessions ==> SettleInstalls(s, now).sessions[id] == ExpireSession(s.sessions[id], now)
  {
  }

  lemma UnsavedInstall(s: Installs, op: InstallOp, now: Time)
    requires GoodInstalls(s) && !op.Mint? && !op.GetSession? && ApplyInstall(s, op, now).reply.Success()
    ensures SettleInstalls(ApplyInstall(s, op, now).installs, now) == SettleInstalls(s, now)
            <==> ChangesNothing(State(map[], s), OnInstall(op), now)
  {
    var id, drop := SuccessWrites(s, op, now);
    var x := ApplyInstall(s, op, now).reply.session;
    if !op.Redeem? { WrittenDiffers(s, op, now); }
    assert s.sessions[id].id == id;
    hide ApplyInstall, GoodInstalls, TrimSpace, IsSpace;
    SettleWriteSessions(s, id, x, drop, now);
    SweptSession(s, id, now);
    hide ExpireSession;
    if op.Redeem? {
      SweptToken(s, now, op.digest);
      SweptWriteToken(s, id, x, drop, now, op.digest);
    }
    hide SettleInstalls;
    if ChangesNothing(State(map[], s), OnInstall(op), now) {
      assert s.sessions[id := x] == s.sessions;
      assert Write(s, id, x, drop) == s;
    }
  }

  /** A successful call on an existing session writes something new unless it is a redemption,
      or a registration of the identity the session has. */
  lemma WrittenDiffers(s: Installs, op: InstallOp, now: Time)
    requires GoodInstalls(s) && !op.Mint? && !op.GetSession? && !op.Redeem? && ApplyInstall(s, op, now).reply.Success()
    ensures op.id in s.sessions && ApplyInstall(s, op, now).reply.SessionReply?
    ensures var x := ApplyInstall(s, op, now).reply.session;
            && ExpireSession(x, now) == x && ExpireSession(s.sessions[op.id], now) == s.sessions[op.id]
            && (x == s.sessions[op.id] <==> ChangesNothing(State(map[], s), OnInstall(op), now))
  {
    hide DropTokens, IsSpace;
  }

  // ---------- Any state, any events ----------

  /** The store once these events have happened. */
  function AfterEvents(d: Store, events: seq<Event>): Store
    decreases |events|
  {
    if events == [] then d else AfterEvents(Next(d, events[0]), events[1..])
  }
}
