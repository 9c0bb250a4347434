# Enclout connection protocol: a verified model

Enclout lets a user reach a confidential machine over SSH only after the device has confirmed the
request locally and checked the machine's attestation. Three parts must agree for that to be safe,
and they are what this project models.

**The request store** (`Requests`, `Promises`, `MemoryStore`, `FileStore`). Connection requests and install
sessions are two status machines; a third table maps the digests of install tokens to sessions. An
overdue entry expires only when a call touches it. The durable store replaces its file after every
successful call, does not write when a call fails (although an expiry has then changed memory), and
does not roll memory back when a write fails, so memory and file really diverge. The classes work on
mutable tables and each method is proved to make exactly the state change, and give exactly the
reply, of one specification function (`Requests.Apply`, `Durable.Serve`). What each call promises is
stated on the stored entries (`Promises`): exactly when it succeeds, what it then stores and answers,
which error it gives otherwise, and what it leaves alone. About runs of those functions are proved: integrity of the tables in every reachable state (`StoreInvariants`, `Durable`), histories
that only move forward and the calls behind every status (`StoreInvariants`, `Durable`), lazy expiry
as a refinement of eager expiry (`Expiry`), recovery after crashes, at-most-once redemption
(`Durable`), the conservation of tokens (`Tokens`) and how final a result is (`Results`).

**The device** (`Verify`, `Flow`, `Reports`, `Install`, `Systemd`). The connection flow is both straight-line
code with early exits and a step machine, which are proved to do the same; for every way the outside
world can answer, `Reports` says which calls are made and which report ends the run. Any number of devices run
against the durable store with lost requests, lost replies, failed writes and crashes; a key is
installed only when every check has passed. The installer runs against the same store while others
use it. The systemd unit's environment block is rendered and read back, for every configuration.

**Bundles** (`Bundles`, `Delivery`). The handler signs payloads for approved requests. Together with
the connection flow: which request an installed bundle is for, and when.

**Signing keys** (`Signing`, `Trust`, `KeysetRuns`, `Rotation`). A signer set publishes a
keyset; devices cache it. The cache is an object, and the interleavings of concurrent lookups are a
step machine that the object is proved to follow. From bounded staleness follows how long a key must
have been published before it may sign, that a run of the connection flow then gets past the
signature check, and that with any shorter time a run can report the bundle as invalid.

Conventions. Clock readings, fresh identifiers, random tokens, prompts, network outcomes and file
outcomes are inputs. A clock need not run forward unless a predicate says so (`ForwardClock`,
`ForwardEvents`; the key cache's clock runs forward because `Tick` only does). Identifiers may
collide unless a predicate says otherwise (`FreshDigest`; `FreshSessions` and `FreshIds` in two
corollaries): the code's generator falls back to a constant
(`services/control-plane/internal/requests/id.go:8-14`). What is said of one entry's history asks
only that its own id is not drawn again; other ids may collide. Lazy expiry and recovery are proved
under the exact condition on colliding ids, stated on the tokens a mint revives (`Expiry.Revived`).
A call refused for its input draws neither id nor token.
A `range` over a Go map takes its elements in an arbitrary order. Mutexes make each store call
atomic. A crash in the middle of a call is one of two event pairs: a failed write and then a crash,
or a completed call, whose reply nobody sees, and then a crash.

Ed25519 (section 5.1 of RFC 8032), standard base64 (section 4 of RFC 4648) and SHA-256 are unknown
functions; what is used of them is required by name (`Crypto.SignaturesCheck`,
`Crypto.EncodingInverts`, `Crypto.HashesAreSized`), and `Crypto.AssumptionsConsistent` shows that
these requirements can be met together.

`dafny verify dfyconfig.toml` checks the whole project with Dafny 4.11.

## Where code and documentation disagree

The model follows the code.

- `docs/runbooks/connector-access-flow.md:26` says the device checks the bundle's freshness. The code
  checks neither request id, nonce nor expiry: `Flow.OnlyTheseFieldsMatter` shows that payloads
  that differ only there give the same run, `Delivery.ForeignBundleInstalls` installs a key from a
  bundle that names another request and has expired, and `Delivery.InstallsOwnBundle` says when the
  bundle is the request's own: when the one delivered is what the handler signed for the id asked.
- An install session that is `installed` need not have had its token redeemed:
  `Results.InstalledUnredeemed` gives the run, and `Results.ReportSucceedsIff` says exactly when a
  report of `installed` succeeds, whatever the token table.
- A caller who is told that an approval could not be saved may still find the request approved;
  `Durable.RefusedApprovalStands` gives the run, and `Durable.EvidenceOnDisk` states what does hold.
- A token whose redemption could not be saved is refused afterwards and, after a crash, accepted
  again; `Durable.FailedWriteDiverges` states both. Since the first answer was a failure, no token
  is redeemed with success twice. `Durable.UnsavedParts` says which unsaved calls set memory apart
  from the file: all that change anything.
- A terminal entry can be undone: `Results.ShownThenLost` reads `installed`, and after a crash the
  session is only approved. It is final if and only if the file holds it too
  (`Results.ClosedForGoodIff`, `Results.TerminalForGoodIff`); a saved entry only moves forward as
  long as its own id is not drawn while memory holds it (`Results.SavedRequestMovesForward`,
  `Results.SavedSessionMovesForward`).
- With colliding session ids lazy expiry can differ from eager expiry, and a recovered store from
  one that never crashed: `Expiry.OldTokenRedeems` and `Durable.CrashRevivesToken` are such runs.
  `Expiry.LazyAgreesIff` and `Durable.RecoversIff` say exactly which runs agree throughout.
- Which error a call on an overdue session gives depends on whether the session was touched before:
  `Expiry.ErrorDependsOnTouch` and `Durable.ErrorDependsOnCrash` are such runs. `Expiry.SameReplyIff`
  says that a call gets the same reply, error included, as from the sweeping store if and only if it
  does not find its session overdue, and `Durable.RecoveredErrorIff` that it gets the same as without
  crashes if and only if it finds it overdue in both or in neither.
- "Connected means installed" holds throughout a run if and only if nobody but a device is first to
  report the request as connected (`Flow.ConnectedMeansInstalledIff`); the store does not ask who
  reports.
- The hexadecimal reader strips "0x" and then "0X", so it also accepts "0x0X" before the digits.

## Model

| member | source | states |
|---|---|---|
| MemoryStore.InMemoryStore.constructor | services/control-plane/internal/requests/store.go:39-46 | A new store is empty. |
| MemoryStore.InMemoryStore.Create | services/control-plane/internal/requests/store.go:52-78 | Refuses blank fields and a non-positive lifetime without touching anything; otherwise stores exactly the new pending request. |
| MemoryStore.InMemoryStore.Get | services/control-plane/internal/requests/store.go:80-92 | Returns the stored request after expiring it if it is overdue, and changes no other entry. |
| MemoryStore.InMemoryStore.ListPendingForDevice | services/control-plane/internal/requests/store.go:94-107 | For every table and visiting order, with the clock read again at each entry: exactly the device's entries stored as pending after the loop, each listed once, and all entries differ from before only by expiry. |
| MemoryStore.ListingAdvances | services/control-plane/internal/requests/store.go:99-105 | One visit keeps the loop's account: visited entries expired at their own reading and listed if pending, the others as before. |
| MemoryStore.ListingMatches | services/control-plane/internal/requests/store.go:94-107 | A finished loop has the effect and the reply of the specified listing. |
| MemoryStore.ListedIdsDiffer | services/control-plane/internal/requests/store.go:94-107 | Where entries are filed under their own ids, the listed ids are distinct. |
| MemoryStore.InMemoryStore.SetLocalDecision | services/control-plane/internal/requests/store.go:109-133 | Only a pending request that is not overdue is decided; an overdue one is stored as expired and refused; nothing else changes. |
| MemoryStore.InMemoryStore.SetResult | services/control-plane/internal/requests/store.go:135-159 | Only an approved request that is not overdue gets a result, and only `connected` or `verification_failed`. |
| MemoryStore.InMemoryStore.ExpireIfNeeded | services/control-plane/internal/requests/store.go:161-171 | Expires exactly the overdue requests whose status is not terminal, and changes the status alone. |
| MemoryStore.InMemoryStore.CreateInstallSession | services/control-plane/internal/requests/store.go:173-202 | Stores the session and the digest of its trimmed token; the token itself goes only to the caller, and only on success. |
| MemoryStore.InMemoryStore.GetInstallSession | services/control-plane/internal/requests/store.go:204-220 | Returns the session; an overdue one becomes failed and loses its tokens. |
| MemoryStore.InMemoryStore.SetInstallIdentity | services/control-plane/internal/requests/store.go:222-248 | Stores the trimmed ids of an open session; blank ids, unknown, overdue and closed sessions are refused. |
| MemoryStore.InMemoryStore.SetInstallApproval | services/control-plane/internal/requests/store.go:250-278 | Approval keeps the tokens; denial closes the session and deletes them. |
| MemoryStore.InMemoryStore.SetInstallResult | services/control-plane/internal/requests/store.go:280-309 | Closes an approved session and deletes its tokens; refuses `installed` without an identity. |
| MemoryStore.InMemoryStore.RedeemInstallToken | services/control-plane/internal/requests/store.go:311-336 | Makes exactly the state change and reply of a redemption of the digest of the trimmed token, as `Promises.RedeemPromise` describes it. |
| MemoryStore.InMemoryStore.ExpireInstallIfNeeded | services/control-plane/internal/requests/store.go:338-350 | Fails exactly the overdue open sessions, keeps an earlier reason, and says whether it did. |
| MemoryStore.InMemoryStore.DeleteInstallTokensForSession | services/control-plane/internal/requests/store.go:352-358 | Deleting while ranging, in any order, removes exactly the session's tokens. |
| MemoryStore.InMemoryStore.DigestIgnoresPadding | services/control-plane/internal/requests/store.go:360-363 | What is hashed is the token without the white space around it. |
| Promises.CreatePromise | services/control-plane/internal/requests/store.go:52-78 | For every state: succeeds exactly with all three fields and a positive lifetime; the entry has each given field, the nonce, status pending, and expires that lifetime from now; nothing else changes; the two errors. |
| Promises.GetPromise | services/control-plane/internal/requests/store.go:80-92 | The entry comes back with its status expired exactly when it is past its expiry and not decided for good, and otherwise as it was. |
| Promises.ListPromise | services/control-plane/internal/requests/store.go:94-107 | Listed are exactly the device's pending entries that are not past their expiry when they are read. |
| Promises.DecidePromise | services/control-plane/internal/requests/store.go:109-133 | Succeeds exactly for a pending request not past its expiry; approval stores approved, denial denied, and no other field changes; which error comes when. |
| Promises.ReportPromise | services/control-plane/internal/requests/store.go:135-159 | Succeeds exactly for an approved request not past its expiry and one of the two results, which it stores with the reason; which error comes when. |
| Promises.MintPromise | services/control-plane/internal/requests/store.go:173-202 | Succeeds exactly with a user and a positive lifetime; the session has each given field and its token leads to it; no other session or token changes. |
| Promises.GetSessionPromise | services/control-plane/internal/requests/store.go:204-220 | A session past its expiry and still open comes back failed and loses its tokens; any other comes back as it was. |
| Promises.IdentifyPromise | services/control-plane/internal/requests/store.go:222-248 | Succeeds exactly with two ids that are not blank, for an open session not past its expiry; stores the trimmed ids and nothing else. |
| Promises.ApprovePromise | services/control-plane/internal/requests/store.go:250-278 | Succeeds exactly for a requested session not past its expiry; approval keeps its tokens; denial fails it with "Denied" and takes them. |
| Promises.InstallReportPromise | services/control-plane/internal/requests/store.go:280-309 | Succeeds exactly for an approved session not past its expiry, with failed, or with installed and both ids; stores result and reason and takes the session's tokens. |
| Promises.RedeemPromise | services/control-plane/internal/requests/store.go:311-336 | A token is redeemed exactly when it is known and its session is stored, approved and not past its expiry; no session changes and exactly the session's tokens are gone. |
| Promises.OverduePromise | services/control-plane/internal/requests/store.go:338-358 | A session found overdue fails, under its own reason or else "Expired", and loses exactly its tokens. |
| StoreInvariants.InstallStep | services/control-plane/internal/requests/store.go:204-358 | Every call that changes existing sessions writes one session, in a permitted way, and drops its tokens if it is then closed; only a registration changes an identity. |
| StoreInvariants.GoodItemsKept | services/control-plane/internal/requests/store.go:52-171 | Every call keeps request ids equal to their keys, and reasons only on connected or failed requests. |
| StoreInvariants.GoodInstallsKept | services/control-plane/internal/requests/store.go:173-358 | Every call keeps: tokens lead to stored open sessions, session ids equal their keys, open sessions have no reason, installed ones have an identity. |
| StoreInvariants.IntegrityKept | services/control-plane/internal/requests/store.go:52-358 | Both of these for every call on the whole store, for any clock and with colliding ids. |
| StoreInvariants.IntegrityAlways | services/control-plane/internal/requests/store.go:52-358 | Integrity in every state of every run, for any clock and with colliding ids. |
| StoreInvariants.OverdueReason | services/control-plane/internal/requests/store.go:338-350 | A session that a call finds overdue ends with the reason exactly "Expired" and without tokens. |
| StoreInvariants.RedeemFindsSession | services/control-plane/internal/requests/store.go:315-323 | The branch for a token without a session is unreachable: "not found" if and only if the token is unknown. |
| StoreInvariants.RequestsMoveForward | services/control-plane/internal/requests/store.go:80-171 | A call moves a request only forward in status and never changes id, nonce or lifetime, unless it draws its id again. |
| StoreInvariants.SessionsMoveForward | services/control-plane/internal/requests/store.go:204-350 | The same for sessions; closed ones do not change at all. |
| StoreInvariants.RequestHistory | services/control-plane/internal/requests/store.go:52-171 | Between any two moments of a run of the in-memory store, under any clock, a request has only moved forward and kept id, nonce and lifetime, unless its own id was drawn again between them; other ids may collide. |
| StoreInvariants.SessionHistory | services/control-plane/internal/requests/store.go:173-350 | The same for sessions; a closed one has not changed at all. |
| StoreInvariants.TerminalForever | services/control-plane/internal/requests/store.go:109-171 | In such a run a terminal entry does not change in any field until its own id is drawn again. |
| StoreInvariants.ApprovalStep | services/control-plane/internal/requests/store.go:109-133 | The only call that makes a request approved is a successful local approval in time. |
| StoreInvariants.ConnectionStep | services/control-plane/internal/requests/store.go:135-159 | The only call that makes a request connected is a successful result in time on an approved request. |
| StoreInvariants.ApprovedHasEvidence | services/control-plane/internal/requests/store.go:109-133 | Every approved request of a run has an earlier successful approval no later than its expiry. |
| StoreInvariants.ConnectedHasEvidence | services/control-plane/internal/requests/store.go:109-171 | Every connected request of a run has a successful approval and after it a successful result, each no later than its expiry, under any clock. |
| Expiry.SettleComposes | services/control-plane/internal/requests/store.go:161-171 | Sweeping at t1 and then at t2 >= t1 is sweeping at t2; hence sweeping is idempotent. |
| Expiry.AlikeLater | services/control-plane/internal/requests/store.go:161-171 | States that agree up to expiry keep agreeing as time passes. |
| Expiry.QuietSettles | services/control-plane/internal/requests/store.go:80-350 | A call that fails or only reads changes nothing that expiry would not change, tokens included. |
| Expiry.RequestsCommute | services/control-plane/internal/requests/store.go:52-171 | Sweeping before a call on requests changes neither its success value nor the settled state after it. |
| Expiry.WriteCommutes | services/control-plane/internal/requests/store.go:222-358 | Writing a session that is not overdue, with or without dropping its tokens, commutes with sweeping. |
| Expiry.AddAlike | services/control-plane/internal/requests/store.go:184-199 | Storing a new session and token in states that agree up to expiry keeps them so if the same tokens of that id have lapsed in both. |
| Expiry.MintAlike | services/control-plane/internal/requests/store.go:173-202 | The same for every mint, whichever tokens it revives, if it revives the same in both. |
| Expiry.SuccessWrites | services/control-plane/internal/requests/store.go:222-336 | A successful call that changes a session writes one that was not overdue, and replies with what it wrote. |
| Expiry.InstallsCommute | services/control-plane/internal/requests/store.go:204-358 | Sweeping before a call on an existing session leads to the same settled state. |
| Expiry.AlikeStep | services/control-plane/internal/requests/store.go:52-358 | From states that agree up to expiry, every call that revives the same tokens in both gives the same success value and states that agree again. |
| Expiry.LazyRefinesEager | services/control-plane/internal/requests/store.go:80-358 | For every run with a forward clock in which no mint revives a token, with any ids, the store and one that sweeps before each call agree up to expiry. |
| Expiry.LazyMatchesEagerReply | services/control-plane/internal/requests/store.go:80-358 | In such a run every call succeeds in both stores or in neither, with the same value. |
| Expiry.SweptReplyIff | services/control-plane/internal/requests/store.go:80-350 | One call: sweeping first changes the reply if and only if the call finds its session overdue, and then it changes the error; calls on requests always get the same error. |
| Expiry.SameReplyIff | services/control-plane/internal/requests/store.go:80-350 | Whole runs, error codes included: a call gets the same reply from both stores if and only if it does not find its session overdue. |
| Expiry.ErrorDependsOnTouch | services/control-plane/internal/requests/store.go:250-266 | A run in which the first late approval hears "expired" and the second "invalid transition"; the sweeping store gives the latter at once. |
| Expiry.FreshIdsRefineEager | services/control-plane/internal/requests/store.go:80-358 | In particular for every run with fresh session ids. |
| Expiry.UnusedIdRevivesNothing | services/control-plane/internal/requests/store.go:184-199 | An unused session id never revives a token. |
| Expiry.SweptRevivesNothing | services/control-plane/internal/requests/store.go:338-358 | In a swept store no call revives a token. |
| Expiry.MintAgreesIff | services/control-plane/internal/requests/store.go:173-202 | A mint keeps two states alike if and only if it revives the same tokens in both. |
| Expiry.LazyAgreesIff | services/control-plane/internal/requests/store.go:80-358 | Over whole runs with a forward clock and any ids, lazy and eager expiry agree after every call if and only if no mint revives a token. |
| Expiry.OldTokenRedeems | services/control-plane/internal/requests/store.go:173-336 | A run of four calls in which they do not: the token of an overdue session redeems a new session with the same id. |
| Tokens.GetBalances | services/control-plane/internal/requests/store.go:204-220 | Reading a session revokes its live tokens exactly when it is found overdue now, and no others. |
| Tokens.WriteBalances | services/control-plane/internal/requests/store.go:222-336 | Every call on an existing session keeps the token table equal to the live part of the ledger. |
| Tokens.ObserveBalances | services/control-plane/internal/requests/store.go:173-358 | The same for every call: a ledger kept from calls and replies alone predicts the token table. |
| Tokens.TokensConserved | services/control-plane/internal/requests/store.go:195-358 | In every run, the live tokens are exactly the minted ones that were neither redeemed nor revoked by denial, result, expiry or the redemption of their session. |
| Tokens.FateIsFinal | services/control-plane/internal/requests/store.go:311-358 | A redeemed or revoked token stays so until the same digest is minted again. |
| Tokens.FateIs | services/control-plane/internal/requests/store.go:204-358 | What ends a live token, cause by cause and in both directions: its redemption, that of its session by another token, a denial, a result, or a call that looks at the session past its expiry. |
| FileStore.FileStore.NewFileStore | services/control-plane/internal/requests/file_store.go:23-38 | Opening gives exactly the file's content, or empty tables without a file, whatever an earlier process had in memory; it fails for an empty path or an unreadable file. |
| FileStore.FileStore.Load | services/control-plane/internal/requests/file_store.go:185-212 | Replaces all three tables by the file's, and leaves them alone when there is no file or it cannot be read. |
| FileStore.FileStore.Persist | services/control-plane/internal/requests/file_store.go:214-236 | The file becomes all of memory or stays as it was. |
| FileStore.FileStore.Create | services/control-plane/internal/requests/file_store.go:40-52 | Tables, file and reply are those of one durable call: an error skips the write, a failed write is an error without rollback. |
| FileStore.FileStore.Get | services/control-plane/internal/requests/file_store.go:54-64 | The same, except that a failed write is ignored. |
| FileStore.FileStore.ListPendingForDevice | services/control-plane/internal/requests/file_store.go:66-73 | The listing is the in-memory one, each entry once; a failed write is ignored. |
| FileStore.FileStore.SetLocalDecision | services/control-plane/internal/requests/file_store.go:75-87 | One durable call: an error skips the write, a failed write is an error without rollback. |
| FileStore.FileStore.SetResult | services/control-plane/internal/requests/file_store.go:89-101 | One durable call: an error skips the write, a failed write is an error without rollback. |
| FileStore.FileStore.CreateInstallSession | services/control-plane/internal/requests/file_store.go:103-115 | One durable call; the token is handed out only when the write succeeded. |
| FileStore.FileStore.GetInstallSession | services/control-plane/internal/requests/file_store.go:117-127 | One durable call; a failed write is ignored. |
| FileStore.FileStore.SetInstallApproval | services/control-plane/internal/requests/file_store.go:129-141 | One durable call: an error skips the write and hides the expired session. |
| FileStore.FileStore.SetInstallResult | services/control-plane/internal/requests/file_store.go:143-155 | One durable call: an error skips the write and hides the expired session. |
| FileStore.FileStore.SetInstallIdentity | services/control-plane/internal/requests/file_store.go:157-169 | One durable call: an error skips the write and hides the expired session. |
| FileStore.FileStore.RedeemInstallToken | services/control-plane/internal/requests/file_store.go:171-183 | One durable call, as `Promises.RedeemPromise` and `Promises.DurablePromise` describe it: success is reported only once the state without the token is on disk. |
| Promises.DurablePromise | services/control-plane/internal/requests/file_store.go:40-183 | Memory always changes as in memory alone; the file becomes all of memory exactly when call and write succeed; success is heard only then, or when all the call did was read. |
| Promises.ReopenPromise | services/control-plane/internal/requests/file_store.go:185-212 | A new process starts from the file, or from nothing. |
| Durable.IntegrityOnDisk | services/control-plane/internal/requests/file_store.go:40-236 | Integrity of memory and file in every state reachable through failed writes, crashes, reopenings, jumping clocks and colliding ids. |
| Durable.EvidenceOnDisk | services/control-plane/internal/requests/file_store.go:75-101 | Through failed writes and crashes, every approved or connected request in memory or on disk has its calls in the trace, in order and in time; each of them succeeded or failed only to be written. |
| Durable.RefusedApprovalStands | services/control-plane/internal/requests/file_store.go:75-87 | An approval that is refused because its write failed can still end up saved. |
| Durable.RedeemConsumes | services/control-plane/internal/requests/store.go:334-335 | A successful redemption needs the token and leaves none of its session. |
| Durable.RedemptionsNeverExceedMints | services/control-plane/internal/requests/file_store.go:103-236 | Over every run, the successful redemptions of a digest, plus one if it is still live in memory or on disk, never exceed the mints of it that took effect; no freshness assumed. |
| Durable.RedeemedAtMostOnce | services/control-plane/internal/requests/file_store.go:171-236 | A token minted at most once is redeemed with success at most once, wherever writes fail and the process crashes. |
| Durable.OneRedemptionPerSession | services/control-plane/internal/requests/file_store.go:103-183 | Per session, live tokens in memory or on disk plus successful redemptions never exceed its mints that took effect. |
| Durable.FreshSessionMints | services/control-plane/internal/requests/store.go:184-199 | With a fresh session id, live tokens plus successful redemptions never exceed one. |
| Durable.ServeLikeSteady | services/control-plane/internal/requests/file_store.go:40-183 | One durable call that revives the same tokens keeps memory and file in step, up to expiry, with a store that never crashed. |
| Durable.RecoveryModuloExpiry | services/control-plane/internal/requests/file_store.go:40-212 | After any run with a forward clock and successful writes in which mints revive the same tokens, crashes anywhere and ids colliding, memory and file both agree up to expiry with the run without crashes. |
| Durable.RecoveredReply | services/control-plane/internal/requests/file_store.go:40-212 | In such a run every call succeeds exactly when it would have without the crashes, with the same value. |
| Durable.RecoveredErrorIff | services/control-plane/internal/requests/file_store.go:40-212 | Error codes included: the reply is that of the run without crashes if and only if the call finds its session overdue in both stores or in neither. |
| Durable.ErrorDependsOnCrash | services/control-plane/internal/requests/file_store.go:117-141 | A run in which a crash changes the error of a late approval. |
| Durable.FreshIdsRecover | services/control-plane/internal/requests/file_store.go:40-212 | Both hold in particular for every run with fresh session ids. |
| Durable.RecoversIff | services/control-plane/internal/requests/file_store.go:40-212 | With any ids, memory agrees throughout with the store that never crashed if and only if every mint revives the same tokens as there. |
| Durable.CrashRevivesToken | services/control-plane/internal/requests/file_store.go:117-127 | A run in which it does not: a deletion of an overdue token is lost in a crash, and the token redeems a new session with the same id. |
| Durable.FailedWriteDiverges | services/control-plane/internal/requests/file_store.go:171-183 | Why writes must succeed there: after a redemption whose write failed, memory refuses the token and the reopened store redeems it. |
| Durable.UnsavedParts | services/control-plane/internal/requests/file_store.go:40-183 | Every successful call that could not be saved sets memory apart from the file, unless it changes nothing: a registration of the identity already stored, or an entry stored again. |
| Results.RequestFileBehindMemory | services/control-plane/internal/requests/file_store.go:40-236 | In memory a saved request is the file's, moved forward, unless its own id was drawn while memory held it; other ids may collide. |
| Results.SessionFileBehindMemory | services/control-plane/internal/requests/file_store.go:40-236 | The same for sessions. |
| Results.SavedRequestMovesForward | services/control-plane/internal/requests/file_store.go:40-236 | Through failed writes and crashes a saved request only moves forward, seen from the file and from memory, unless its own id was drawn while memory held it. |
| Results.SavedSessionMovesForward | services/control-plane/internal/requests/file_store.go:40-236 | The same for sessions. |
| Results.ClosedStays | services/control-plane/internal/requests/file_store.go:143-183 | A session closed in memory and in the file stays so through any events that do not draw its id. |
| Results.TerminalStays | services/control-plane/internal/requests/file_store.go:75-101 | The same for terminal requests. |
| Results.ClosedForGoodIff | services/control-plane/internal/requests/file_store.go:143-155 | A session that memory holds as closed is so for good if and only if the file holds it too. |
| Results.TerminalForGoodIff | services/control-plane/internal/requests/file_store.go:75-101 | The same for terminal requests. |
| Results.ShownThenLost | services/control-plane/internal/requests/file_store.go:117-155 | A run from an empty store in which a read answers `installed` and a crash gives back an approved session. |
| Results.ReportSucceedsIff | services/control-plane/internal/requests/store.go:280-309 | In every state a report of `installed` succeeds exactly for an approved session that is not overdue and has an identity. |
| Results.ReportIgnoresTokens | services/control-plane/internal/requests/store.go:280-309 | Reply and sessions after a report do not depend on the token table. |
| Results.InstalledUnredeemed | services/control-plane/internal/requests/store.go:173-309 | Four successful calls from an empty store end with an installed session, saved, whose token was never redeemed. |
| Results.SessionApprovalStep | services/control-plane/internal/requests/store.go:250-278 | The only call that makes a session approved is a successful approval in time. |
| Results.InstalledStep | services/control-plane/internal/requests/store.go:280-309 | The only call that makes a session installed is a successful result in time on an approved session. |
| Results.SessionEvidence | services/control-plane/internal/requests/file_store.go:129-155 | Through failed writes and crashes, every approved or installed session in memory or on disk has its calls in the trace, in order and in time. |
| Results.RedemptionWasApproved | services/control-plane/internal/requests/file_store.go:129-183 | Every successful redemption of a durable run is in time, of a session that an earlier call approved in time. |
| Verify.AcceptedIffSigned | services/local-agent/internal/verify/control_plane_signature.go:10-65 | A bundle is accepted if and only if its non-empty bytes carry a signature that checks under the key trusted for its kid. |
| Verify.NewStaticPolicy | services/local-agent/internal/verify/policy.go:12-25 | The policy allows exactly the configured measurements. |
| Verify.ComputeExpectedReportData | services/local-agent/internal/verify/report_data.go:5-10 | The buffer is the hash of the untrimmed key followed by 32 zeros. |
| Verify.DecodesIffSpells | services/local-agent/internal/verify/dcap_http.go:120-123 | Hexadecimal decoding gives b if and only if the text spells b, two digits a byte, in either case. |
| Verify.HexDigits | services/local-agent/internal/verify/dcap_http.go:120-123 | A digit's value is its position among the sixteen, in either case. |
| Verify.PrefixStripped | services/local-agent/internal/verify/dcap_http.go:113-115 | Stripping prefixes never eats hexadecimal data. |
| Verify.ParseReportDataHex | services/local-agent/internal/verify/dcap_http.go:110-136 | Fills the 64-byte buffer exactly when the specified parse succeeds, with its bytes. |
| Verify.ParsesExactly | services/local-agent/internal/verify/dcap_http.go:110-136 | Accepted are exactly: white space, an optional prefix, and a spelling of 32 or 64 bytes, giving those bytes zero-padded. |
| Verify.ParseUndoesPrint | services/local-agent/internal/verify/dcap_http.go:110-136 | Parsing undoes printing for every 32 or 64 bytes, any prefix, either case and surrounding white space. |
| Verify.TrustedIff | services/local-agent/internal/verify/verifier.go:37-58 | Trusted if and only if all three flags hold, the policy allows the measurements, and the reported text spells the key's hash, alone or followed by 32 zeros. |
| Verify.PadIs | services/local-agent/internal/verify/verifier.go:50-53 | Zero-padded data equals the expected report data exactly for the hash and the padded hash. |
| Trust.CollectNormal | services/local-agent/internal/trust/keyset_source.go:98-111 | A collected key map has only trimmed, non-blank kids and keys. |
| Trust.LastEntryCounts | services/local-agent/internal/trust/keyset_source.go:98-111 | Of entries with the same trimmed kid the last one counts. |
| Trust.TrustedMapFromKeyset | services/local-agent/internal/trust/keyset_source.go:93-120 | Accepts exactly the non-empty keysets of usable keys that contain their active kid; the map is non-empty and normal. |
| Trust.AcceptedIff | services/local-agent/internal/trust/keyset_source.go:93-120 | Accepted is exactly a non-empty keyset whose entries all have kid, key and algorithm "ed25519", and that contains its active kid if it names one. |
| Trust.CopyTrustedKeyMap | services/local-agent/internal/trust/keyset_source.go:122-139 | For every order: a fresh map with the usable entries, trimmed, or none when there are none. |
| Trust.CopyIsNormal | services/local-agent/internal/trust/keyset_source.go:127-134 | Every copy is normal. |
| Trust.CopyOfNormal | services/local-agent/internal/trust/keyset_source.go:122-139 | Copying a normal map is the identity. |
| Trust.KeysetSource.constructor | services/local-agent/internal/trust/keyset_source.go:33-53 | Starts with a fresh normal copy of the bootstrap, or nothing; a non-positive lifetime becomes the default. |
| Trust.KeysetSource.CachedIfFresh | services/local-agent/internal/trust/keyset_source.go:83-91 | Serves a fresh copy equal to the cache exactly while the cache has not expired. |
| Trust.KeysetSource.Replace | services/local-agent/internal/trust/keyset_source.go:75-78 | Installs the keys with the lifetime counted from the lookup's own reading. |
| Trust.KeysetSource.TrustedKeys | services/local-agent/internal/trust/keyset_source.go:55-81 | Hit, successful fetch and failed fetch, with the whole new state; a failed or rejected fetch changes nothing and returns nothing. |
| Trust.LookUpAndScribble | services/local-agent/internal/trust/keyset_source.go:47-91 | A lookup after which every map handed out so far is overwritten serves and keeps what the cache held or the fetch brought. |
| Trust.ServedDespiteScribbling | services/local-agent/internal/trust/keyset_source.go:47-91 | For every sequence of lookups, fetches and times: overwriting the bootstrap and every map ever handed out, after each lookup, changes nothing that is served or cached. |
| KeysetRuns.CheckOnObject | services/local-agent/internal/trust/keyset_source.go:83-91 | The cache object's section under the read lock is the machine's step CheckCache, after any interleaving. |
| KeysetRuns.InstallOnObject | services/local-agent/internal/trust/keyset_source.go:75-78 | Its section under the write lock is the step Install, even over newer keys. |
| KeysetRuns.Start | services/local-agent/internal/trust/keyset_source.go:33-53 | A new cache object is in the machine's first state. |
| KeysetRuns.Lookup | services/local-agent/internal/trust/keyset_source.go:55-91 | A whole lookup leaves and returns what its steps do. |
| KeysetRuns.DoKeepsGood | services/local-agent/internal/trust/keyset_source.go:55-91 | Every step of every lookup keeps the account of where cached and returned keys came from. |
| KeysetRuns.RunGood | services/local-agent/internal/trust/keyset_source.go:55-91 | That account holds in every state of every interleaving. |
| KeysetRuns.BoundedStaleness | services/local-agent/internal/trust/keyset_source.go:55-91 | Under every interleaving, returned keys were fetched by that lookup or come from a fetch or bootstrap begun less than one lifetime before its reading, even when an older fetch overwrites a newer one. |
| KeysetRuns.OnlyInstallReplaces | services/local-agent/internal/trust/keyset_source.go:65-78 | Only an accepted fetch replaces what is trusted or extends its lifetime. |
| KeysetRuns.RotationFindsKey | services/local-agent/internal/trust/keyset_source.go:55-91 | A lookup at least one lifetime after a key was first published, finished while it still is, returns that key. |
| KeysetRuns.RotationSafe | docs/runbooks/signing-key-rotation.md:30-45 | A bundle signed at least one cache lifetime, less one nanosecond, after its key was published passes the signature check of every lookup begun after the signing and finished while the key is published. |
| KeysetRuns.TooEarlyCanFail | docs/runbooks/signing-key-rotation.md:66-68 | The waiting time cannot be shortened: at every moment before that bound a device can be served a map without the key. |
| Rotation.StepsInOrder | services/local-agent/internal/flow/runner.go:61-130 | From any stage the calls of a run follow one fixed order, broken off anywhere, with at most one report, which is last. |
| Rotation.ProcessInOrder | services/local-agent/internal/flow/runner.go:61-130 | In particular for whole runs: the bundle is always fetched before the keys are looked up. |
| Rotation.LookupThenQuote | services/local-agent/internal/flow/runner.go:86-109 | After a lookup under which the bundle checks and parses, the next call is the quote's. |
| Rotation.RotatedKeyReachesQuote | services/local-agent/internal/flow/runner.go:77-109 | With such a signing time a run of Process never reports the signature as invalid: it goes on to the quote. |
| Rotation.TooEarlyRefused | docs/runbooks/signing-key-rotation.md:66-68 | With any earlier signing time there are a device and a run of Process that reports the bundle as invalid, however it is signed. |
| Text.SortSorts | services/control-plane/internal/signing/attestation_bundle.go:169-171 | Sorting entries with distinct kids makes the kids strictly increasing. |
| Text.LessIff | services/control-plane/internal/signing/attestation_bundle.go:169-171 | In the order sorted by, the first difference decides and a proper prefix comes first. |
| Text.TrimTakesSpace | services/control-plane/internal/requests/store.go:223 | Trimming takes white space off both ends and nothing else. |
| Text.SortedUnique | services/local-agent/internal/install/systemd.go:64-68 | A strictly sorted listing is determined by its elements, so map order cannot show. |
| Signing.NewSignerSetFromSeedMap | services/control-plane/internal/signing/attestation_bundle.go:90-121 | Succeeds, whatever the order and with colliding trimmed kids, if and only if every kid is non-blank, every seed decodes to 32 bytes and the active kid is present; the signers belong to their kids. |
| Signing.AddSigner | services/control-plane/internal/signing/attestation_bundle.go:101-111 | One visit keeps: visited entries are usable and have a signer, and no signer comes from elsewhere. |
| Signing.AllSigners | services/control-plane/internal/signing/attestation_bundle.go:101-115 | After the loop there is one well-made signer per trimmed kid. |
| Signing.BuildableIff | services/control-plane/internal/signing/attestation_bundle.go:90-115 | A set is built exactly when every entry has a kid that is not blank and decodes to 32 bytes, and the active kid, "v1" if none is named, has an entry. |
| Signing.SeedsAreConfigured | services/control-plane/internal/signing/attestation_bundle.go:73-111 | Every kid's signer has the seed that an entry configures for that kid, and that seed's public key. |
| Signing.SignedWithConfiguredSeed | services/control-plane/internal/signing/attestation_bundle.go:123-157 | What is signed is the given bytes, with the signature of the seed configured for the active kid. |
| Signing.PublishedKeyIsConfigured | services/control-plane/internal/signing/attestation_bundle.go:159-177 | What is published for a kid is the public key of the seed configured for it. |
| Signing.Keyset | services/control-plane/internal/signing/attestation_bundle.go:159-177 | For every order: the active kid and exactly one entry per signer, kids strictly increasing. |
| Signing.PublishedOnce | services/control-plane/internal/signing/attestation_bundle.go:169-176 | A signer set has only one publishable keyset. |
| Signing.PublishedIsTrusted | services/local-agent/internal/trust/keyset_source.go:93-120 | A device accepts every published keyset and trusts exactly each kid with its public key, the active kid included. |
| Signing.SignedByPasses | services/control-plane/internal/signing/attestation_bundle.go:123-135 | What a signer signs passes the check of every device that trusts its kid with its key. |
| Signing.RoundTrip | services/control-plane/internal/signing/attestation_bundle.go:154-177 | Sign, publish, trust, verify: every signed bundle is accepted under the published keyset. |
| Bundles.SignedNamesApprovedRequest | services/control-plane/internal/http/attestation_bundle_handler.go:12-73 | Every signed payload names a request approved in time, with its own nonce and expiry, issued no later than that expiry; with well-keyed templates it names the request's connector. |
| Bundles.SignedForIt | services/control-plane/internal/http/attestation_bundle_handler.go:19-66 | When it signs, id, nonce, expiry and template are those of the stored, approved request. |
| Bundles.SignsIff | services/control-plane/internal/http/attestation_bundle_handler.go:19-66 | The handler signs exactly for a stored, approved request, in time by both clocks, whose connector has a template. |
| Bundles.AnswerIs | services/control-plane/internal/http/attestation_bundle_handler.go:19-80 | Which refusal comes otherwise, and every field that is signed: the key's hash as report data, the template's policy version or "v1". |
| Delivery.ForeignBundleInstalls | services/local-agent/internal/flow/runner.go:92-129 | For every cryptography, signer, request and parser that reads some bytes so: a run that installs the key and reports the request connected from a payload naming another request, expired in 1970. |
| Delivery.AlwaysDelivered | services/local-agent/internal/flow/runner.go:77-130 | If every bundle delivered to a device is what the handler signed for the id it asked for, that device works on, and its installs used, such bundles, whatever other devices get. |
| Delivery.InstallsOwnBundle | services/local-agent/internal/flow/runner.go:77-130 | Then every key this device installs comes from a payload signed for this very request while it was approved, with its nonce, issued no later than its expiry, and is the key of its connector's template. |
| Flow.Onward | services/local-agent/internal/flow/runner.go:61-130 | Performing a stage's call leads from one point of a run to the next. |
| Flow.Process | services/local-agent/internal/flow/runner.go:61-130 | The straight-line code performs exactly the step machine's calls, in its order, with its verdict, on every exit; `Reports.ReportIs` and `Reports.EarlyEnds` say which they are. |
| Reports.PayloadFields | services/local-agent/internal/flow/runner.go:132-150 | A payload is usable exactly with a key and a quote, and every field comes from the entry of its own name. |
| Reports.FieldRead | services/local-agent/internal/flow/runner.go:152-162 | An entry that is missing or not a string reads as empty. |
| Reports.VerdictIs | services/local-agent/internal/verify/verifier.go:37-58 | The reason of an untrusted verdict is that of the first of the four checks that fails; a bundle is trusted exactly when none does. |
| Reports.EarlyEnds | services/local-agent/internal/flow/runner.go:61-80 | Runs that come to hold no bundle, call by call; a refusal by the user is always posted as a refusal. |
| Reports.ReportIs | services/local-agent/internal/flow/runner.go:77-130 | Once approved, taken and given a bundle, a run always ends with one report: connected exactly when every check passed and the key was installed, otherwise the reason of the first check that failed; with all its calls and arguments. |
| Reports.OneReportLast | services/local-agent/internal/flow/runner.go:77-130 | In such a run exactly one report is made, it is the last call, and it says connected exactly when an install was tried and succeeded. |
| Reports.CallsMatchEffects | services/local-agent/internal/flow/runner.go:70-129 | What reaches the store is the call the run records, with the same id and arguments. |
| Flow.OnlyTheseFieldsMatter | services/local-agent/internal/flow/runner.go:92-162 | Payloads that agree on the ten fields read give the same calls, arguments and verdict, whatever request id, nonce and expiry they carry. |
| Flow.StepKeepsAgent | services/local-agent/internal/flow/runner.go:61-130 | One step of a device, with its store call and reply, keeps the evidence its position needs. |
| Flow.WorldAlwaysSound | services/local-agent/internal/flow/runner.go:61-130 | In every run of devices and store, each device's position and each install are backed by the log. |
| Flow.AcceptedMeansApproved | services/local-agent/internal/flow/runner.go:70-72 | Behind every logged approval is the move after which the store holds the request as approved, in memory and on disk. |
| Flow.FailClosed | services/local-agent/internal/flow/runner.go:61-130 | A key is installed only after the user approved that request and the store then held it as approved, with its exact payload signed under a trusted key, all flags held, the policy passed and report data equal to that key's padded hash. |
| Flow.ServeKeepsConnected | services/control-plane/internal/requests/store.go:135-159 | A store call keeps "connected means installed" for a request unless it succeeds in reporting it as connected without an install. |
| Flow.ConnectedImpliesInstalled | services/local-agent/internal/flow/runner.go:124-129 | If no other caller is first to report a request as connected, late reports of the devices included, then it is connected, in memory or on disk, only after a successful install for it, through lost replies, failed writes and crashes. |
| Flow.ConnectedMeansInstalledIff | services/local-agent/internal/flow/runner.go:124-129 | That condition is exact: "connected means installed" holds throughout a run, for each request, if and only if it is met. |
| Install.DefaultIdentityUsable | services/local-agent/internal/install/runner.go:142-154 | Whatever the host name, the fall-back id is trimmed and not blank. |
| Install.ResolvedIdentityUsable | services/local-agent/internal/install/runner.go:122-140 | The resolved ids are not blank and the store's trimming does not change them. |
| Install.FallBackIdentity | services/local-agent/internal/install/runner.go:142-154 | The fall-back keeps the letters and digits of the lower-cased host name in order, without a dash at either end; a name of that form is kept as it is; "local" if there is no letter or digit. |
| Install.RunBecomesDash | services/local-agent/internal/install/runner.go:148 | A run of other characters, however long, becomes one dash. |
| Install.ConfigValidIff | services/local-agent/internal/install/runner.go:88-104 | Valid is exactly a configuration with label, binary, path and the four named variables. |
| Install.ServiceEnvIs | services/local-agent/internal/install/runner.go:57-60 | Each id is the configured one if there is one, otherwise the session's, and the fall-back only otherwise; no other variable changes. |
| Install.ReasonsAre | services/local-agent/internal/install/runner.go:62-83 | The reasons for a failure and their order. |
| Install.ValidateConfig | services/local-agent/internal/install/runner.go:88-104 | Accepts exactly the configurations with label, binary, path and the four required variables. |
| Install.CopyEnv | services/local-agent/internal/install/runner.go:106-112 | The copy equals the original for every order. |
| Install.FailureRecorded | services/local-agent/internal/install/runner.go:114-120 | A failure report is accepted exactly when the session is approved, in time, reached and saved; the session is then closed with exactly this reason and no token, in memory and on disk. |
| Install.Run | services/local-agent/internal/install/runner.go:51-86 | Exactly one result is posted if and only if the redemption succeeded, naming the first problem; each id in the service's environment is the configured one, else the session's, else the host's; success leaves the session installed, in memory and on disk, with those ids, if nobody else wrote it. |
| Install.RegistrationStores | services/control-plane/internal/requests/store.go:222-248 | An accepted registration is in memory and on disk. |
| Install.OneCallKeepsIdentity | services/control-plane/internal/requests/store.go:204-336 | Calls that do not write the session, or mint its id, leave its identity alone. |
| Install.OthersKeepIdentity | services/control-plane/internal/requests/file_store.go:40-183 | The same for any sequence of calls, failed writes and crashes. |
| Install.ReportInstalls | services/control-plane/internal/requests/store.go:280-309 | An accepted "installed" report ends with the registered identity, in memory and on disk. |
| Install.IdentityNeverLost | services/control-plane/internal/requests/store.go:222-350 | Once a session has an identity no call takes it away, unless its id is minted again. |
| Install.OthersNeverLoseIdentity | services/control-plane/internal/requests/file_store.go:40-212 | The same through any calls of others, failed writes and crashes, unless its id is minted again. |
| Install.ReportNeverLacksIdentity | services/control-plane/internal/requests/store.go:280-309 | After an accepted registration, unless the session's id is minted again, an "installed" report is never refused for lack of identity: it succeeds exactly when the session is approved, not overdue and the write succeeds. |
| Systemd.ReplaceConcat | services/local-agent/internal/install/systemd.go:78-82 | Replacing works piece by piece. |
| Systemd.TwoPassesAreOne | services/local-agent/internal/install/systemd.go:78-82 | The two replacement passes equal one escape per character. |
| Systemd.UnescapeUndoes | services/local-agent/internal/install/systemd.go:78-82 | Escaped text has no bare quote and reads back as the original. |
| Systemd.EscapeInjective | services/local-agent/internal/install/systemd.go:78-82 | Different values are escaped differently. |
| Systemd.EscapeIsPerCharacter | services/local-agent/internal/install/systemd.go:78-82 | The escape puts a backslash before each quote and backslash and changes no other character. |
| Systemd.SortedKeys | services/local-agent/internal/install/systemd.go:64-68 | For every map order the keys come out as the one sorted listing. |
| Systemd.RenderSystemdUnit | services/local-agent/internal/install/systemd.go:53-76 | The rendered text does not depend on the map's order. |
| Systemd.FixedLinesAre | services/local-agent/internal/install/systemd.go:55-74 | The lines of a unit around the path and the environment. |
| Systemd.UnitIs | services/local-agent/internal/install/systemd.go:53-76 | A rendered unit is the fixed lines around the path's line and the environment's; a line reader finds the path of the binary. |
| Systemd.SplitUndoesUnlines | services/local-agent/internal/install/systemd.go:55-74 | Lines without newlines are recovered from the joined text, whatever follows. |
| Systemd.EnvLineReads | services/local-agent/internal/install/systemd.go:69-71 | One Environment line gives back its key and value, whatever quotes and backslashes they hold. |
| Systemd.UnitLinesRead | services/local-agent/internal/install/systemd.go:53-76 | All lines of a unit together give back exactly the environment, over whatever the path of the binary brings in. |
| Systemd.OneLinePathInjectsNothing | services/local-agent/internal/install/systemd.go:60 | A path on one line brings in no variable. |
| Systemd.EnvironmentRoundTrip | services/local-agent/internal/install/systemd.go:53-82 | For every configuration, reading the rendered unit gives back exactly the environment if and only if no key contains '=' or a newline, no value contains a newline and the path brings in no other variable. |

## Left out

- KeysetRuns.RotationSafe: speaks of lookups that returned keys; a fetch can still fail for other reasons.
- Rotation.RotatedKeyReachesQuote: takes the times of the calls as given; it does not model the HTTP client's time-outs.
- Install.Run: an installed service stands for one outcome, `installOk`; what the service does afterwards is not modelled.
- Systemd.EnvironmentRoundTrip: the reader undoes this quoting; systemd's own expansion of % specifiers is not modelled.
- Expiry.LazyMatchesEagerReply: compares success and success values; `Expiry.SameReplyIff` adds the error codes.
- HTTP routing, bearer authentication, the intent adapter, the API client and handlers other than the bundle handler: they forward to the store; replies are modelled as success, error or lost.
- JSON: the file's encoding is taken as lossless, and the client's payload as the parse of the bytes that were signed.
- Power loss without a flush to disk: a rename is atomic and survives a crash of the process.
- Go's monotonic clock reading, dropped when a time is saved: one clock serves stored and fresh times.
- Mutual exclusion: each store call and each lock section of the key cache is one step.
- A fetch of the keyset is answered at one moment; what the server publishes may change at any other.
- `DCAPVerifier` over HTTP, prompts, launchctl and systemctl, the launchd plist and writing the key file: outcomes are inputs. The key file gets the trimmed key, while the hash is over the untrimmed one.
- `MeasurementPolicy` other than the static policy, and verifiers other than the strict one; Process's fall-back reason for foreign errors is therefore not reached.
- `services/connector-tee`, configuration and environment parsing, path parsing: no property beyond a single function.
- Strings are sequences of characters; lower-casing is a parameter and UTF-8 encoding is not modelled.
- The library's sort: only its result on distinct keys is used, modelled by an insertion sort on sequences.
