/** How final a reported result is. Under failed writes and crashes it is the file that only
    moves forward; and an installed session says nothing about its token. */
module Results {
  import opened Wrappers
  import opened Text
  import opened Requests
  import opened StoreInvariants
  import opened Expiry
  import opened Durable

  // ---------- The file only moves forward ----------

  /** No call from event m to event n draws this id while memory holds it. */
  ghost predicate RequestNotReused(events: seq<Event>, m: nat, n: nat, id: string)
    requires n <= |events|
  {
    forall i :: m <= i < n && events[i].Served? && CreatesRequest(events[i].call.op, id) ==> id !in At(events, i).mem.items
  }

  ghost predicate SessionNotReused(events: seq<Event>, m: nat, n: nat, id: string)
    requires n <= |events|
  {
    forall i :: m <= i < n && events[i].Served? && MintsSession(events[i].call.op, id) ==>
      id !in At(events, i).mem.installs.sessions
  }

  /** The file at event m, seen from the file and from memory at event n. */
  predicate RequestKeptAhead(events: seq<Event>, m: nat, n: nat, id: string)
    requires m <= n <= |events|
  {
    && RequestAhead(OnDisk(At(events, m)), OnDisk(At(events, n)), id)
    && RequestAhead(OnDisk(At(events, m)), At(events, n).mem, id)
  }

  predicate SessionKeptAhead(events: seq<Event>, m: nat, n: nat, id: string)
    requires m <= n <= |events|
  {
    && SessionAhead(OnDisk(At(events, m)), OnDisk(At(events, n)), id)
    && SessionAhead(OnDisk(At(events, m)), At(events, n).mem, id)
  }

  lemma OneEventRequest(events: seq<Event>, m: nat, n: nat, id: string)
    requires m <= n < |events| && RequestNotReused(events, n, n + 1, id) && RequestKeptAhead(events, m, n, id)
    ensures RequestKeptAhead(events, m, n + 1, id)
  {
    hide RequestAhead, Apply, Integrity;
    var d, e := At(events, n), events[n];
    if e.Served? {
      IntegrityOnDisk(events, n);
      RequestsMoveForward(d.mem, e.call.op, e.call.now, id);
      RequestAheadTransitive(OnDisk(At(events, m)), d.mem, Apply(d.mem, e.call.op, e.call.now).state, id);
    }
  }

  lemma OneEventSession(events: seq<Event>, m: nat, n: nat, id: string)
    requires m <= n < |events| && SessionNotReused(events, n, n + 1, id) && SessionKeptAhead(events, m, n, id)
    ensures SessionKeptAhead(events, m, n + 1, id)
  {
    hide SessionAhead, Apply, Integrity;
    var d, e := At(events, n), events[n];
    if e.Served? {
      IntegrityOnDisk(events, n);
      SessionsMoveForward(d.mem, e.call.op, e.call.now, id);
      SessionAheadTransitive(OnDisk(At(events, m)), d.mem, Apply(d.mem, e.call.op, e.call.now).state, id);
    }
  }

  /** An event leaves the file alone, or leaves it equal to memory. */
  lemma FileFollows(events: seq<Event>, n: nat)
    requires n < |events|
    ensures OnDisk(At(events, n + 1)) == OnDisk(At(events, n)) || OnDisk(At(events, n + 1)) == At(events, n + 1).mem
  {
  }

  /** Memory is the file moved forward, for every request whose own id is never drawn while
      memory holds it. */
  lemma {:induction false} RequestFileBehindMemory(events: seq<Event>, n: nat, id: string)
    requires n <= |events| && RequestNotReused(events, 0, n, id)
    ensures RequestAhead(OnDisk(At(events, n)), At(events, n).mem, id)
  {
    hide RequestAhead, Apply, Reopen;
    if n > 0 {
      RequestFileBehindMemory(events, n - 1, id);
      RequestUnmoved(OnDisk(At(events, n - 1)), id);
      OneEventRequest(events, n - 1, n - 1, id);
      FileFollows(events, n - 1);
      RequestUnmoved(At(events, n).mem, id);
      hide At;
    } else {
      RequestUnmoved(EMPTY, id);
    }
  }

  lemma {:induction false} SessionFileBehindMemory(events: seq<Event>, n: nat, id: string)
    requires n <= |events| && SessionNotReused(events, 0, n, id)
    ensures SessionAhead(OnDisk(At(events, n)), At(events, n).mem, id)
  {
    hide SessionAhead, Apply, Reopen;
    if n > 0 {
      SessionFileBehindMemory(events, n - 1, id);
      SessionUnmoved(OnDisk(At(events, n - 1)), id);
      OneEventSession(events, n - 1, n - 1, id);
      FileFollows(events, n - 1);
      SessionUnmoved(At(events, n).mem, id);
      hide At;
    } else {
      SessionUnmoved(EMPTY, id);
    }
  }

  /** Between two moments of a run with failed writes and crashes, a saved request has only
      moved forward, in the file and in memory, unless its own id was drawn while memory held
      it. Memory itself, which a crash can set back, has not. */
  lemma {:induction false} SavedRequestMovesForward(events: seq<Event>, m: nat, n: nat, id: string)
    requires m <= n <= |events| && RequestNotReused(events, 0, n, id)
    ensures RequestKeptAhead(events, m, n, id)
  {
    hide RequestAhead, At;
    if m < n {
      SavedRequestMovesForward(events, m, n - 1, id);
      OneEventRequest(events, m, n - 1, id);
    } else {
      RequestFileBehindMemory(events, n, id);
      assert RequestAhead(OnDisk(At(events, m)), OnDisk(At(events, m)), id) by { RequestUnmoved(OnDisk(At(events, m)), id); }
    }
  }

  lemma {:induction false} SavedSessionMovesForward(events: seq<Event>, m: nat, n: nat, id: string)
    requires m <= n <= |events| && SessionNotReused(events, 0, n, id)
    ensures SessionKeptAhead(events, m, n, id)
  {
    hide SessionAhead, At;
    if m < n {
      SavedSessionMovesForward(events, m, n - 1, id);
      OneEventSession(events, m, n - 1, id);
    } else {
      SessionFileBehindMemory(events, n, id);
      assert SessionAhead(OnDisk(At(events, m)), OnDisk(At(events, m)), id) by { SessionUnmoved(OnDisk(At(events, m)), id); }
    }
  }

  lemma RequestUnmoved(s: State, id: string)
    ensures RequestAhead(s, s, id)
  {
  }

  lemma SessionUnmoved(s: State, id: string)
    ensures SessionAhead(s, s, id)
  {
  }

  // ---------- Closed for good ----------

  /** No event draws this session id. */
  ghost predicate SessionUndrawn(events: seq<Event>, sid: string) {
    forall e :: e in events && e.Served? ==> !MintsSession(e.call.op, sid)
  }

  ghost predicate RequestUndrawn(events: seq<Event>, id: string) {
    forall e :: e in events && e.Served? ==> !CreatesRequest(e.call.op, id)
  }

  predicate HoldsSession(s: State, x: InstallSession) {
    x.id in s.installs.sessions && s.installs.sessions[x.id] == x
  }

  predicate HoldsRequest(s: State, r: ConnectionRequest) {
    r.id in s.items && s.items[r.id] == r
  }

  lemma CallKeepsClosed(s: State, op: Op, now: Time, x: InstallSession)
    requires Integrity(s) && HoldsSession(s, x) && !Open(x.status) && !MintsSession(op, x.id)
    ensures HoldsSession(Apply(s, op, now).state, x)
  {
    hide Apply, Integrity;
    SessionsMoveForward(s, op, now, x.id);
  }

  lemma CallKeepsTerminal(s: State, op: Op, now: Time, r: ConnectionRequest)
    requires Integrity(s) && HoldsRequest(s, r) && RequestRank(r.status) == 2 && !CreatesRequest(op, r.id)
    ensures HoldsRequest(Apply(s, op, now).state, r)
  {
    hide Apply, Integrity;
    RequestsMoveForward(s, op, now, r.id);
  }

  /** Closed in memory and in the file: nothing but a new mint of its id changes the session. */
  lemma {:induction false} ClosedStays(d: Store, events: seq<Event>, x: InstallSession)
    requires Integrity(d.mem) && Integrity(OnDisk(d)) && !Open(x.status) && SessionUndrawn(events, x.id)
    requires HoldsSession(d.mem, x) && HoldsSession(OnDisk(d), x)
    ensures HoldsSession(AfterEvents(d, events).mem, x) && HoldsSession(OnDisk(AfterEvents(d, events)), x)
    decreases |events|
  {
    if events != [] {
      hide Integrity, Apply, HoldsSession, Open;
      var e := events[0];
      assert e in events;
      if e.Served? {
        IntegrityKept(d.mem, e.call.op, e.call.now);
        CallKeepsClosed(d.mem, e.call.op, e.call.now, x);
      }
      ClosedStays(Durable.Next(d, e), events[1..], x);
    }
  }

  lemma {:induction false} TerminalStays(d: Store, events: seq<Event>, r: ConnectionRequest)
    requires Integrity(d.mem) && Integrity(OnDisk(d)) && RequestRank(r.status) == 2 && RequestUndrawn(events, r.id)
    requires HoldsRequest(d.mem, r) && HoldsRequest(OnDisk(d), r)
    ensures HoldsRequest(AfterEvents(d, events).mem, r) && HoldsRequest(OnDisk(AfterEvents(d, events)), r)
    decreases |events|
  {
    if events != [] {
      hide Integrity, Apply, HoldsRequest;
      var e := events[0];
      assert e in events;
      if e.Served? {
        IntegrityKept(d.mem, e.call.op, e.call.now);
        CallKeepsTerminal(d.mem, e.call.op, e.call.now, r);
      }
      TerminalStays(Durable.Next(d, e), events[1..], r);
    }
  }

  /** A session that memory holds as closed stays so for good, whatever fails or crashes, if
      and only if the file holds it too. */
  lemma ClosedForGoodIff(d: Store, x: InstallSession)
    requires Integrity(d.mem) && Integrity(OnDisk(d)) && HoldsSession(d.mem, x) && !Open(x.status)
    ensures (forall events :: SessionUndrawn(events, x.id) ==> HoldsSession(AfterEvents(d, events).mem, x))
            <==> HoldsSession(OnDisk(d), x)
  {
    hide Integrity, HoldsSession;
    if HoldsSession(OnDisk(d), x) {
      forall events | SessionUndrawn(events, x.id) ensures HoldsSession(AfterEvents(d, events).mem, x) {
        ClosedStays(d, events, x);
      }
    } else {
      CrashAlone(d);
      assert SessionUndrawn([Crashed], x.id);
    }
  }

  lemma TerminalForGoodIff(d: Store, r: ConnectionRequest)
    requires Integrity(d.mem) && Integrity(OnDisk(d)) && HoldsRequest(d.mem, r) && RequestRank(r.status) == 2
    ensures (forall events :: RequestUndrawn(events, r.id) ==> HoldsRequest(AfterEvents(d, events).mem, r))
            <==> HoldsRequest(OnDisk(d), r)
  {
    hide Integrity, HoldsRequest;
    if HoldsRequest(OnDisk(d), r) {
      forall events | RequestUndrawn(events, r.id) ensures HoldsRequest(AfterEvents(d, events).mem, r) {
        TerminalStays(d, events, r);
      }
    } else {
      CrashAlone(d);
      assert RequestUndrawn([Crashed], r.id);
    }
  }

  lemma CrashAlone(d: Store)
    ensures AfterEvents(d, [Crashed]) == Reopen(d)
  {
    assert AfterEvents(Reopen(d), []) == Reopen(d);
  }

  // ---------- A result that is shown and then lost ----------

  const GRANTED := InstallSession("s", "u", "dev", "conn", "", InstallApproved, 0, 10, "")

  /** Minted, approved and given its identity; then the report is not saved, a read answers
      from memory, and the process crashes. */
  const LOST_RESULT := [
    Served(Call(OnInstall(Mint(ASKED, "s", "token")), 0, 0), true),
    Served(Call(OnInstall(Approve("s", true)), 1, 1), true),
    Served(Call(OnInstall(Identify("s", "conn", "dev")), 2, 2), true),
    Served(Call(OnInstall(InstallReport("s", Installed, "")), 3, 3), false),
    Served(Call(OnInstall(GetSession("s")), 4, 4), false),
    Crashed]

  const INSTALLED := GRANTED.(status := Installed)

  /** The tables with one session and its token, or without the token. */
  function Only(x: InstallSession, live: bool): State {
    State(map[], Installs(map["s" := x], if live then map["token" := "s"] else map[]))
  }

  lemma ShownThenLost()
    ensures ReplyOf(LOST_RESULT, 3) == Failure(WriteFailed)
    ensures ReplyOf(LOST_RESULT, 4) == SessionReply(INSTALLED)
    ensures HoldsSession(At(LOST_RESULT, 6).mem, GRANTED)
  {
    Granted(LOST_RESULT);
    ReportStep();
    ReadStep();
    hide Apply;
    assert At(LOST_RESULT, 4) == Store(Only(INSTALLED, false), Some(Only(GRANTED, true)));
    assert At(LOST_RESULT, 5).file == Some(Only(GRANTED, true));
    assert At(LOST_RESULT, 6).mem == Only(GRANTED, true);
  }

  lemma MintStep()
    ensures Apply(EMPTY, LOST_RESULT[0].call.op, 0)
         == Outcome(Only(FIRST, true), SessionReply(FIRST))
  {
  }

  lemma ApproveStep()
    ensures Apply(Only(FIRST, true), LOST_RESULT[1].call.op, 1)
         == Outcome(Only(FIRST.(status := InstallApproved), true), SessionReply(FIRST.(status := InstallApproved)))
  {
    hide DropTokens;
    assert map["s" := FIRST]["s" := FIRST.(status := InstallApproved)] == map["s" := FIRST.(status := InstallApproved)];
  }

  lemma IdentifyStep()
    ensures Apply(Only(FIRST.(status := InstallApproved), true), LOST_RESULT[2].call.op, 2)
         == Outcome(Only(GRANTED, true), SessionReply(GRANTED))
  {
    NotBlank();
    hide TrimSpace, IsSpace, DropTokens;
    assert map["s" := FIRST.(status := InstallApproved)]["s" := GRANTED] == map["s" := GRANTED];
  }

  lemma ReportStep()
    ensures Apply(Only(GRANTED, true), LOST_RESULT[3].call.op, 3) == Outcome(Only(INSTALLED, false), SessionReply(INSTALLED))
  {
    NotBlank();
    hide TrimSpace, IsSpace;
    assert map["s" := GRANTED]["s" := INSTALLED] == map["s" := INSTALLED];
    assert DropTokens(map["token" := "s"], "s") == map[];
  }

  lemma ReadStep()
    ensures Apply(Only(INSTALLED, false), LOST_RESULT[4].call.op, 4).reply == SessionReply(INSTALLED)
  {
  }

  lemma NotBlank()
    ensures TrimSpace("conn") == "conn" && TrimSpace("dev") == "dev"
  {
    assert Trimmed("conn") && Trimmed("dev");
  }

  lemma Granted(events: seq<Event>)
    requires |events| >= 3 && events[..3] == LOST_RESULT[..3]
    ensures At(events, 3) == Store(Only(GRANTED, true), Some(Only(GRANTED, true)))
  {
    MintStep();
    ApproveStep();
    IdentifyStep();
    hide Apply;
    assert events[0] == events[..3][0] && events[1] == events[..3][1] && events[2] == events[..3][2];
    assert At(events, 0) == FRESH;
    assert At(events, 1) == Store(Only(FIRST, true), Some(Only(FIRST, true)));
    var approved := Only(FIRST.(status := InstallApproved), true);
    assert At(events, 2) == Store(approved, Some(approved));
  }

  // ---------- Installed without a redemption ----------

  /** A report of "installed" succeeds exactly for an approved session that is not overdue and
      has an identity. */
  lemma ReportSucceedsIff(s: Installs, id: string, reason: string, now: Time)
    ensures DoInstallReport(s, id, Installed, reason, now).reply.Success()
            <==> && id in s.sessions && s.sessions[id].status == InstallApproved
                 && !SessionExpires(s.sessions[id], now) && !LacksIdentity(s.sessions[id])
  {
  }

  /** The token table has no say in it. */
  lemma ReportIgnoresTokens(s: Installs, tokens: map<string, string>, id: string, outcome: InstallStatus, reason: string, now: Time)
    ensures var p, q := DoInstallReport(s, id, outcome, reason, now), DoInstallReport(s.(tokens := tokens), id, outcome, reason, now);
            p.reply == q.reply && p.installs.sessions == q.installs.sessions
  {
  }

  const UNREDEEMED := LOST_RESULT[..3] + [Served(Call(OnInstall(InstallReport("s", Installed, "")), 3, 3), true)]

  /** Four successful calls from an empty store: the session is installed, in memory and on
      disk, and no token was ever redeemed. */
  lemma InstalledUnredeemed()
    ensures At(UNREDEEMED, 4) == Store(Only(INSTALLED, false), Some(Only(INSTALLED, false)))
    ensures ReplyOf(UNREDEEMED, 3).Success()
    ensures RedeemCount(UNREDEEMED, 4, "token") == 0 && SessionRedemptions(UNREDEEMED, 4, "s") == 0
  {
    ReportSaved();
    hide At, ReplyOf, RedeemCount, SessionRedemptions;
    NoRedemptions(UNREDEEMED, 4, "token", "s");
  }

  lemma ReportSaved()
    ensures At(UNREDEEMED, 4) == Store(Only(INSTALLED, false), Some(Only(INSTALLED, false)))
    ensures ReplyOf(UNREDEEMED, 3).Success()
  {
    assert UNREDEEMED[..3] == LOST_RESULT[..3];
    Granted(UNREDEEMED);
    ReportStep();
    hide Apply, Only;
    var d := At(UNREDEEMED, 3);
    assert At(UNREDEEMED, 4) == Next(d, UNREDEEMED[3]);
  }

  lemma {:induction false} NoRedemptions(events: seq<Event>, n: nat, digest: string, sid: string)
    requires n <= |events|
    requires forall e :: e in events ==> e.Served? && e.call.op.OnInstall? && !e.call.op.install.Redeem?
    ensures RedeemCount(events, n, digest) == 0 && SessionRedemptions(events, n, sid) == 0
  {
    hide ReplyOf;
    if n > 0 {
      NoRedemptions(events, n - 1, digest, sid);
      assert events[n - 1] in events;
    }
  }

  // ---------- Evidence behind a session ----------

  /** A session is approved by one call only: an approval in time. */
  lemma SessionApprovalStep(s: Installs, op: InstallOp, now: Time, sid: string)
    requires var t := ApplyInstall(s, op, now).installs.sessions; sid in t && t[sid].status == InstallApproved
    ensures var r := ApplyInstall(s, op, now);
            var x := r.installs.sessions[sid];
            || (sid in s.sessions && s.sessions[sid].status == InstallApproved && s.sessions[sid].expiresAt == x.expiresAt)
            || (op == Approve(sid, true) && r.reply.Success() && now <= x.expiresAt)
  {
    hide TrimSpace, DropTokens;
  }

  /** A session is installed by one call only: a result in time, on an approved session. */
  lemma InstalledStep(s: Installs, op: InstallOp, now: Time, sid: string)
    requires var t := ApplyInstall(s, op, now).installs.sessions; sid in t && t[sid].status == Installed
    ensures var r := ApplyInstall(s, op, now);
            var x := r.installs.sessions[sid];
            sid in s.sessions &&
            (|| s.sessions[sid] == x
             || (&& op == InstallReport(sid, Installed, x.reason) && r.reply.Success()
                 && now <= x.expiresAt == s.sessions[sid].expiresAt && s.sessions[sid].status == InstallApproved))
  {
    hide TrimSpace, DropTokens;
  }

  /** Event `i` approved session sid, or did all but save it, no later than t. */
  predicate SessionApprovedBy(events: seq<Event>, i: nat, sid: string, t: Time)
    requires i < |events|
  {
    events[i].Served? && events[i].call.op == OnInstall(Approve(sid, true)) && TookEffect(events, i) && events[i].call.now <= t
  }

  predicate InstalledBy(events: seq<Event>, j: nat, sid: string, x: InstallSession)
    requires j < |events|
  {
    && events[j].Served? && events[j].call.op == OnInstall(InstallReport(sid, Installed, x.reason))
    && TookEffect(events, j) && events[j].call.now <= x.expiresAt
  }

  ghost predicate SessionBacked(events: seq<Event>, n: nat, sid: string, x: InstallSession)
    requires n <= |events|
  {
    && (x.status == InstallApproved ==> exists i :: 0 <= i < n && SessionApprovedBy(events, i, sid, x.expiresAt))
    && (x.status == Installed ==>
          exists i, j :: 0 <= i < j < n && SessionApprovedBy(events, i, sid, x.expiresAt) && InstalledBy(events, j, sid, x))
  }

  ghost predicate AllSessionsBacked(events: seq<Event>, n: nat, s: State)
    requires n <= |events|
  {
    forall sid :: sid in s.installs.sessions ==> SessionBacked(events, n, sid, s.installs.sessions[sid])
  }

  lemma SucceededTookEffect(events: seq<Event>, n: nat)
    requires n < |events| && events[n].Served?
    requires Apply(At(events, n).mem, events[n].call.op, events[n].call.now).reply.Success()
    ensures TookEffect(events, n)
  {
    hide Apply;
  }

  lemma CallKeepsSessionsBacked(events: seq<Event>, n: nat)
    requires n < |events| && events[n].Served? && AllSessionsBacked(events, n, At(events, n).mem)
    ensures AllSessionsBacked(events, n + 1, At(events, n + 1).mem)
  {
    var before, after, call := At(events, n).mem.installs, At(events, n + 1).mem.installs, events[n].call;
    assert Apply(At(events, n).mem, call.op, call.now).state == At(events, n + 1).mem by { MemoryAfter(events, n); }
    if Apply(At(events, n).mem, call.op, call.now).reply.Success() { SucceededTookEffect(events, n); }
    hide At, TookEffect, ApplyInstall;
    forall sid | sid in after.sessions ensures SessionBacked(events, n + 1, sid, after.sessions[sid]) {
      var x := after.sessions[sid];
      if !(sid in before.sessions && before.sessions[sid] == x) && call.op.OnInstall? {
        if x.status == InstallApproved {
          SessionApprovalStep(before, call.op.install, call.now, sid);
          assert (sid in before.sessions && before.sessions[sid].status == InstallApproved
                  && before.sessions[sid].expiresAt == x.expiresAt) || SessionApprovedBy(events, n, sid, x.expiresAt);
        } else if x.status == Installed {
          InstalledStep(before, call.op.install, call.now, sid);
          var i :| 0 <= i < n && SessionApprovedBy(events, i, sid, before.sessions[sid].expiresAt);
          assert SessionApprovedBy(events, i, sid, x.expiresAt) && InstalledBy(events, n, sid, x);
        }
      } else {
        assert SessionBacked(events, n, sid, before.sessions[sid]);
      }
    }
  }

  lemma SessionsBackedLater(events: seq<Event>, n: nat, s: State)
    requires n < |events| && AllSessionsBacked(events, n, s)
    ensures AllSessionsBacked(events, n + 1, s)
  {
    hide SessionApprovedBy, InstalledBy;
    forall sid | sid in s.installs.sessions ensures SessionBacked(events, n + 1, sid, s.installs.sessions[sid]) {
      assert SessionBacked(events, n, sid, s.installs.sessions[sid]);
    }
  }

  /** In memory and on disk, through failed writes and crashes: an approved session has its
      approval in the trace, an installed one its approval and then its result, each no later
      than its expiry. */
  lemma {:induction false} SessionEvidence(events: seq<Event>, n: nat)
    requires n <= |events|
    ensures AllSessionsBacked(events, n, At(events, n).mem) && AllSessionsBacked(events, n, OnDisk(At(events, n)))
  {
    if n > 0 {
      hide AllSessionsBacked, Apply;
      SessionEvidence(events, n - 1);
      SessionsBackedLater(events, n - 1, At(events, n - 1).mem);
      SessionsBackedLater(events, n - 1, OnDisk(At(events, n - 1)));
      if events[n - 1].Served? { CallKeepsSessionsBacked(events, n - 1); }
    } else {
      assert At(events, 0) == FRESH;
    }
  }

  /** Every successful redemption, over durable runs, is of a session that was approved before,
      in time, and is itself in time. */
  lemma RedemptionWasApproved(events: seq<Event>, n: nat, sid: string) returns (i: nat)
    requires n < |events| && RedeemedFor(events, n, sid)
    ensures i < n && SessionApprovedBy(events, i, sid, ReplyOf(events, n).session.expiresAt)
    ensures events[n].call.now <= ReplyOf(events, n).session.expiresAt
  {
    SessionEvidence(events, n);
    IntegrityOnDisk(events, n);
    var s, digest := At(events, n).mem.installs, events[n].call.op.install.digest;
    RedeemNeedsApproval(s, digest, events[n].call.now);
    hide At, SessionApprovedBy;
    var x := s.sessions[s.tokens[digest]];
    assert SessionBacked(events, n, sid, x);
    i :| 0 <= i < n && SessionApprovedBy(events, i, sid, x.expiresAt);
  }

  lemma RedeemNeedsApproval(s: Installs, digest: string, now: Time)
    requires GoodInstalls(s) && ApplyInstall(s, Redeem(digest), now).reply.Success()
    ensures digest in s.tokens && s.tokens[digest] in s.sessions
    ensures var x := s.sessions[s.tokens[digest]];
            && x.id == s.tokens[digest] && x.status == InstallApproved && now <= x.expiresAt
            && ApplyInstall(s, Redeem(digest), now).reply == SessionReply(x)
  {
    assert GoodToken(s, digest);
  }
}
