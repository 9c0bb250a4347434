/** The control plane's bundle handler: a read of the store, a second look at the clock, and a
    payload to sign. */
module Bundles {
  import opened Requests
  import opened StoreInvariants
  import opened Durable

  datatype Template = Template(
    connectorId: string, sshPublicKey: string, quoteHex: string, eventLog: string,
    mrtd: string, rtmr0: string, rtmr1: string, rtmr2: string, rtmr3: string, policyVersion: string)

  datatype Payload = Payload(
    requestId: string, template: Template, reportDataExpected: string, policyVersion: string,
    issuedAt: Time, expiresAt: Time, nonce: string)

  datatype Response = Signable(payload: Payload) | LookupFailed | NotApproved | NoTemplate | Gone

  /** `now` is the store's reading, `later` the handler's own. */
  function AttestationBundle(s: State, id: string, now: Time, templates: map<string, Template>, later: Time,
                             hashHex: string -> string): (State, Response)
  {
    var r := DoGet(s.items, id, now);
    var after := s.(items := r.items);
    if !r.reply.RequestReply? then (after, LookupFailed)
    else
      var req := r.reply.request;
      if req.status != Approved then (after, NotApproved)
      else if req.connectorId !in templates then (after, NoTemplate)
      else if req.expiresAt < later then (after, Gone)
      else
        var tpl := templates[req.connectorId];
        var policy := if tpl.policyVersion == "" then "v1" else tpl.policyVersion;
        (after, Signable(Payload(req.id, tpl, hashHex(tpl.sshPublicKey), policy, later, req.expiresAt, req.nonce)))
  }

  /** Every template is filed under its own connector id. */
  predicate WellKeyed(templates: map<string, Template>) {
    forall k :: k in templates ==> templates[k].connectorId == k
  }

  /** Exactly when the handler signs: the request is stored, approved and in time by both clocks,
      and its connector has a template. */
  lemma SignsIff(s: State, id: string, now: Time, templates: map<string, Template>, later: Time, hashHex: string -> string)
    ensures AttestationBundle(s, id, now, templates, later, hashHex).1.Signable? <==>
              && id in s.items && s.items[id].status == Approved && now <= s.items[id].expiresAt
              && s.items[id].connectorId in templates && later <= s.items[id].expiresAt
  {
  }

  /** Which refusal comes otherwise, and what is signed. The handler's read of the store is a
      plain read. */
  lemma AnswerIs(s: State, id: string, now: Time, templates: map<string, Template>, later: Time, hashHex: string -> string)
    ensures var (after, answer) := AttestationBundle(s, id, now, templates, later, hashHex);
            && after == Apply(s, OnRequest(Get(id)), now).state
            && (id !in s.items ==> answer == LookupFailed)
            && (id in s.items && (s.items[id].status != Approved || now > s.items[id].expiresAt) ==> answer == NotApproved)
            && (id in s.items && s.items[id].status == Approved && now <= s.items[id].expiresAt ==>
                  var r := s.items[id];
                  && (r.connectorId !in templates ==> answer == NoTemplate)
                  && (r.connectorId in templates && later > r.expiresAt ==> answer == Gone)
                  && (r.connectorId in templates && later <= r.expiresAt ==>
                        var t := templates[r.connectorId];
                        && answer.Signable? && answer.payload.template == t
                        && answer.payload.requestId == r.id && answer.payload.nonce == r.nonce
                        && answer.payload.issuedAt == later && answer.payload.expiresAt == r.expiresAt
                        && answer.payload.reportDataExpected == hashHex(t.sshPublicKey)
                        && (t.policyVersion != "" ==> answer.payload.policyVersion == t.policyVersion)
                        && (t.policyVersion == "" ==> answer.payload.policyVersion == "v1")))
  {
  }

  /** What the handler signs comes from the stored request. */
  lemma SignedForIt(s: State, id: string, now: Time, templates: map<string, Template>, later: Time, hashHex: string -> string)
    requires GoodItems(s.items) && AttestationBundle(s, id, now, templates, later, hashHex).1.Signable?
    ensures var p := AttestationBundle(s, id, now, templates, later, hashHex).1.payload;
            && id in s.items && s.items[id].status == Approved
            && p.requestId == id && p.nonce == s.items[id].nonce && p.expiresAt == s.items[id].expiresAt
            && p.issuedAt == later <= p.expiresAt && now <= p.expiresAt
            && s.items[id].connectorId in templates && p.template == templates[s.items[id].connectorId]
  {
    assert GoodRequest(id, s.items[id]);
  }

  /** After any run of the store, any clock, failed writes and crashes included: a payload is
      signed only for a request that was approved on the device no later than its expiry; it
      carries that request's id, nonce and expiry, and is issued no later than that expiry. The
      connector it names is the template's; with a well-keyed table that is the request's. */
  lemma SignedNamesApprovedRequest(events: seq<Event>, n: nat, id: string, now: Time, templates: map<string, Template>,
                                   later: Time, hashHex: string -> string) returns (i: nat)
    requires n <= |events|
    requires AttestationBundle(At(events, n).mem, id, now, templates, later, hashHex).1.Signable?
    ensures var s := At(events, n).mem;
            var p := AttestationBundle(s, id, now, templates, later, hashHex).1.payload;
            && id in s.items && s.items[id].status == Approved
            && i < n && ApprovedBy(events, i, s.items[id], id)
            && p.requestId == id && p.nonce == s.items[id].nonce && p.expiresAt == s.items[id].expiresAt
            && p.issuedAt == later <= p.expiresAt && now <= p.expiresAt
            && s.items[id].connectorId in templates && p.template == templates[s.items[id].connectorId]
            && (WellKeyed(templates) ==> p.template.connectorId == s.items[id].connectorId)
  {
    IntegrityOnDisk(events, n);
    EvidenceOnDisk(events, n);
    SignedForIt(At(events, n).mem, id, now, templates, later, hashHex);
    var r := At(events, n).mem.items[id];
    assert Backed(events, n, id, r);
    i :| 0 <= i < n && ApprovedBy(events, i, r, id);
  }
}
