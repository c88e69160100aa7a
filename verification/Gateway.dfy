/**
 The consent protocol between Department B, which asks, and Department A, which holds the document
 (app/services/interop_gateway_service.py). One request is one atomic step; what the departments answer is a
 parameter of the step.
 */
module Gateway {
  import opened Wrappers
  import opened IdentityResolution
  import Corpus

  type ConsentId = nat
  type UserId = string
  type Time = int

  const CONSENT_VALIDITY: Time := 30 * 24 * 60 * 60
  const REQUIRED_DOCUMENT_FIELDS := ["reference", "status", "issued_on"]

  // ---- Consents ----

  datatype Status = Pending | Granted | Denied | Revoked

  datatype Grant = Grant(
    master: MasterId, citizen: UserId, purpose: string, category: string, fields: seq<string>, status: Status,
    createdAt: Time, decidedAt: Option<Time>, expiresAt: Option<Time>, revokedAt: Option<Time>)

  type Grants = map<ConsentId, Grant>

  /** The dates of a consent fit its status; a grant runs for thirty days from the decision. */
  ghost predicate GrantOk(g: Grant, now: Time) {
    && g.createdAt <= now
    && (g.expiresAt.Some? <==> g.status.Granted? || (g.status.Revoked? && g.decidedAt.Some?))
    && (g.expiresAt.Some? ==> g.decidedAt.Some? && g.expiresAt.value == g.decidedAt.value + CONSENT_VALIDITY)
    && (g.decidedAt.Some? ==> g.createdAt <= g.decidedAt.value <= now)
    && (g.status.Pending? ==> g.decidedAt.None?)
    && (g.status.Denied? ==> g.decidedAt.Some?)
    && (g.revokedAt.Some? <==> g.status.Revoked?)
    && (g.revokedAt.Some? ==> g.createdAt <= g.revokedAt.value <= now)
  }

  /** Consents for the same person and the same kind of document that are still open. */
  predicate Rivals(x: Grant, y: Grant) {
    && x.master == y.master && x.category == y.category
    && (x.status.Pending? || x.status.Granted?) && (y.status.Pending? || y.status.Granted?)
  }

  /** The first ran out before the second was asked for. */
  predicate RanOutBefore(x: Grant, y: Grant) {
    x.status.Granted? && x.expiresAt.Some? && x.expiresAt.value <= y.createdAt
  }

  ghost predicate GrantsOk(grants: Grants, now: Time) {
    && (forall id :: id in grants ==> GrantOk(grants[id], now))
    && (forall a, b :: a in grants && b in grants && a != b && Rivals(grants[a], grants[b]) ==>
          RanOutBefore(grants[a], grants[b]) || RanOutBefore(grants[b], grants[a]))
  }

  predicate ValidAt(g: Grant, now: Time) {
    g.status.Granted? && g.expiresAt.Some? && now < g.expiresAt.value
  }

  /** A person has at most one consent per kind of document that is waiting or in force. */
  lemma OneOpenConsent(grants: Grants, now: Time, a: ConsentId, b: ConsentId)
    requires GrantsOk(grants, now) && a in grants && b in grants
    requires grants[a].master == grants[b].master && grants[a].category == grants[b].category
    requires (grants[a].status.Pending? || ValidAt(grants[a], now))
      && (grants[b].status.Pending? || ValidAt(grants[b], now))
    ensures a == b
  {
    assert GrantOk(grants[a], now) && GrantOk(grants[b], now);
    if a != b { assert Rivals(grants[a], grants[b]); }
  }

  predicate Matches(g: Grant, master: MasterId, category: string, status: Status) {
    g.master == master && g.category == category && g.status == status
  }

  /** The latest grant, as `_find_consent` picks it. */
  ghost predicate IsLatest(grants: Grants, id: ConsentId, master: MasterId, category: string, status: Status) {
    && id in grants && Matches(grants[id], master, category, status)
    && forall x :: x in grants && Matches(grants[x], master, category, status) ==>
       grants[x].createdAt <= grants[id].createdAt
  }

  /** Looking only at the grant created last never misses one that is in force. */
  lemma LatestGrantDecides(grants: Grants, now: Time, latest: ConsentId, master: MasterId, category: string,
                           x: ConsentId)
    requires GrantsOk(grants, now) && IsLatest(grants, latest, master, category, Granted)
    requires x in grants && Matches(grants[x], master, category, Granted) && ValidAt(grants[x], now)
    ensures x == latest
  {
    assert GrantOk(grants[latest], now) && GrantOk(grants[x], now);
    if x != latest { assert Rivals(grants[x], grants[latest]); }
  }

  /** What one step may do to a consent: nothing, a decision, or a withdrawal; what was denied or revoked stays so. */
  predicate MayBecome(g: Grant, h: Grant, now: Time) {
    || h == g
    || (g.status.Pending? && h == g.(status := Granted, decidedAt := Some(now), expiresAt :=
       Some(now + CONSENT_VALIDITY)))
    || (g.status.Pending? && h == g.(status := Denied, decidedAt := Some(now)))
    || ((g.status.Pending? || g.status.Granted?) && h == g.(status := Revoked, revokedAt := Some(now)))
  }

  ghost predicate GrantsStep(a: Grants, b: Grants, now: Time) {
    forall id :: id in a ==> id in b && MayBecome(a[id], b[id], now)
  }

  lemma GrantsStepToItself(grants: Grants, now: Time)
    ensures GrantsStep(grants, grants, now)
  {}

  /** Time passing alone breaks nothing. */
  lemma GrantsOkLater(grants: Grants, now: Time, later: Time)
    requires GrantsOk(grants, now) && now <= later
    ensures GrantsOk(grants, later)
  {
    forall id | id in grants ensures GrantOk(grants[id], later) { assert GrantOk(grants[id], now); }
  }

  lemma GrantOkAfterStep(g: Grant, h: Grant, clock: Time, now: Time)
    requires GrantOk(g, clock) && clock <= now && MayBecome(g, h, now)
    ensures GrantOk(h, now)
  {}

  lemma RivalsBefore(g: Grant, h: Grant, g': Grant, h': Grant, now: Time)
    requires MayBecome(g, g', now) && MayBecome(h, h', now) && Rivals(g', h')
    requires g.expiresAt.Some? <==> g.status.Granted? || (g.status.Revoked? && g.decidedAt.Some?)
    requires h.expiresAt.Some? <==> h.status.Granted? || (h.status.Revoked? && h.decidedAt.Some?)
    ensures Rivals(g, h)
    ensures RanOutBefore(g, h) ==> RanOutBefore(g', h')
    ensures RanOutBefore(h, g) ==> RanOutBefore(h', g')
  {}

  lemma ExpiryFits(g: Grant, now: Time)
    requires GrantOk(g, now)
    ensures g.expiresAt.Some? <==> g.status.Granted? || (g.status.Revoked? && g.decidedAt.Some?)
  {}

  /** Any allowed change of the consents that are there keeps them in order. */
  lemma GrantsOkAfterStep(a: Grants, b: Grants, clock: Time, now: Time)
    requires GrantsOk(a, clock) && clock <= now && GrantsStep(a, b, now) && b.Keys == a.Keys
    ensures GrantsOk(b, now)
  {
    hide MayBecome, GrantOk, Rivals, RanOutBefore;
    forall id | id in b ensures GrantOk(b[id], now) {
      GrantOkAfterStep(a[id], b[id], clock, now);
    }
    forall x, y | x in b && y in b && x != y && Rivals(b[x], b[y])
      ensures RanOutBefore(b[x], b[y]) || RanOutBefore(b[y], b[x]) {
      ExpiryFits(a[x], clock);
      ExpiryFits(a[y], clock);
      RivalsBefore(a[x], a[y], b[x], b[y], now);
    }
  }

  /** A new request for consent when none is waiting and the latest grant, if any, has run out. */
  lemma GrantsOkAfterRequest(grants: Grants, now: Time, id: ConsentId, g: Grant, latest: Option<ConsentId>)
    requires GrantsOk(grants, now) && id !in grants && GrantOk(g, now) && g.status.Pending? && g.createdAt == now
    requires forall x :: x in grants ==> !Matches(grants[x], g.master, g.category, Status.Pending)
    requires latest.None? ==> forall x :: x in grants ==> !Matches(grants[x], g.master, g.category, Granted)
    requires latest.Some? ==> IsLatest(grants, latest.value, g.master, g.category, Granted)
                              && !ValidAt(grants[latest.value], now)
    ensures GrantsOk(grants[id := g], now)
    ensures forall x :: x in grants && Matches(grants[x], g.master, g.category, Granted) ==> !ValidAt(grants[x], now)
  {
    forall x | x in grants && Rivals(grants[x], g) ensures RanOutBefore(grants[x], g) && !ValidAt(grants[x], now) {
      assert GrantOk(grants[x], now) && !Matches(grants[x], g.master, g.category, Status.Pending);
      assert Matches(grants[x], g.master, g.category, Granted);
      if ValidAt(grants[x], now) { LatestGrantDecides(grants, now, latest.value, g.master, g.category, x); }
    }
    forall x | x in grants && Matches(grants[x], g.master, g.category, Granted) ensures !ValidAt(grants[x], now) {
      assert Rivals(grants[x], g);
    }
  }

  // ---- Reads from Department A ----

  /** One call of Department A's `fetch_document`. */
  datatype Fetch = Fetch(consent: ConsentId, master: MasterId, beneficiary: Key, resident: Key, category: string,
    at: Time)

  predicate CoversRequired(fields: seq<string>) {
    forall i :: 0 <= i < |REQUIRED_DOCUMENT_FIELDS| ==> REQUIRED_DOCUMENT_FIELDS[i] in fields
  }

  /**
   The read happened after the consent was granted, before it ran out and before any withdrawal, for the
   consent's person and kind of document, and the consent covers every field that is read.
   */
  ghost predicate Justified(grants: Grants, f: Fetch) {
    && f.consent in grants
    && var g := grants[f.consent];
       && g.master == f.master && g.category == f.category && CoversRequired(g.fields)
       && g.decidedAt.Some? && g.expiresAt.Some? && g.decidedAt.value <= f.at < g.expiresAt.value
       && (g.status.Granted? || (g.status.Revoked? && g.revokedAt.Some? && f.at <= g.revokedAt.value))
  }

  ghost predicate AllJustified(grants: Grants, fetches: seq<Fetch>, clock: Time) {
    forall i :: 0 <= i < |fetches| ==> Justified(grants, fetches[i]) && fetches[i].at <= clock
  }

  /** No later step takes the justification of an earlier read away. */
  lemma JustifiedAfterStep(a: Grants, b: Grants, fetches: seq<Fetch>, clock: Time, now: Time)
    requires AllJustified(a, fetches, clock) && clock <= now && GrantsStep(a, b, now)
    ensures AllJustified(b, fetches, now)
  {
    forall i | 0 <= i < |fetches| ensures Justified(b, fetches[i]) && fetches[i].at <= now {
      var f := fetches[i];
      assert Justified(a, f);
      assert MayBecome(a[f.consent], b[f.consent], now);
    }
  }

  /** Both departments' identifiers are linked to the person of the consent. */
  ghost predicate BothLinked(links: map<Key, Link>, f: Fetch) {
    && f.beneficiary in links && links[f.beneficiary].master == f.master && f.beneficiary.system == "dept_b"
    && f.resident in links && links[f.resident].master == f.master && f.resident.system == "dept_a"
  }

  ghost predicate AllLinked(links: map<Key, Link>, fetches: seq<Fetch>) {
    forall i :: 0 <= i < |fetches| ==> BothLinked(links, fetches[i])
  }

  // ---- What the departments answer ----

  datatype PersonRow = PersonRow(id: string, name: string, mobile: Option<string>)

  datatype ApplicationReply = ApplicationDown | NoApplication | Application(verified: bool)

  datatype ResidentReply = ResidentDown | NoResident | Resident(row: PersonRow)

  /** `document` is the quality score of the document Department A returns, if it returns one. */
  datatype World = World(
    application: ApplicationReply, beneficiary: Option<PersonRow>, resident: ResidentReply,
    owner: Option<UserId>, document: Option<real>, matcher: Matcher)

  datatype Actor = Actor(user: UserId, manages: bool)

  datatype Outcome =
    | Refused | NotFound | ConnectorUnavailable | AlreadyCompleted
    | IdentityAmbiguous(side: Key, candidate: CandidateId) | SourceRecordNotFound | IdentityConflict
    | ConsentRequired(consent: ConsentId)
    | FieldsNotConsented | DocumentNotFound | QualityFailed | Success

  predicate HasRead(o: Outcome) {
    o.DocumentNotFound? || o.QualityFailed? || o.Success?
  }

  datatype ConsentError = NoSuchConsent | NotAllowed | WrongStatus

  function BeneficiaryKey(row: PersonRow): Key { Key("dept_b", "beneficiary_code", row.id) }
  function ResidentKey(row: PersonRow): Key { Key("dept_a", "resident_id", row.id) }

  /** The one person both departments' records belong to. */
  datatype Subject = Subject(master: MasterId, beneficiary: Key, resident: Key)

  /** The two records are linked to different persons. */
  ghost predicate TwoPersons(links: map<Key, Link>, beneficiary: PersonRow, resident: PersonRow) {
    && BeneficiaryKey(beneficiary) in links && ResidentKey(resident) in links
    && links[BeneficiaryKey(beneficiary)].master != links[ResidentKey(resident)].master
  }

  /** Both records are linked to one person. */
  ghost predicate OnePerson(links: map<Key, Link>, beneficiary: PersonRow, resident: PersonRow) {
    && BeneficiaryKey(beneficiary) in links && ResidentKey(resident) in links
    && links[BeneficiaryKey(beneficiary)].master == links[ResidentKey(resident)].master
  }

  /** How the resolution of both sides ends, by what is linked once it has been tried. */
  ghost predicate ResolutionFits(links: map<Key, Link>, beneficiary: PersonRow, resident: ResidentReply,
                                 r: Result<Subject, Outcome>) {
    var known := BeneficiaryKey(beneficiary) in links;
    && (r.Ok? <==> resident.Resident? && OnePerson(links, beneficiary, resident.row))
    && (r.Err? && r.error.ConnectorUnavailable? <==> known && resident.ResidentDown?)
    && (r.Err? && r.error.SourceRecordNotFound? <==> known && resident.NoResident?)
    && (r.Err? && r.error.IdentityConflict? <==> resident.Resident? && TwoPersons(links, beneficiary, resident.row))
    && (r.Err? && r.error.IdentityAmbiguous? <==> !known || (resident.Resident? && ResidentKey(resident.row) !in links))
    && (r.Err? && r.error.IdentityAmbiguous? ==>
          r.error.side == if known && resident.Resident? then ResidentKey(resident.row)
            else BeneficiaryKey(beneficiary))
  }

  /** A consent in force for the person and the kind of document. */
  ghost predicate InForce(grants: Grants, master: MasterId, category: string, now: Time, id: ConsentId) {
    id in grants && Matches(grants[id], master, category, Granted) && ValidAt(grants[id], now)
  }

  /** How the consents decide: no consent in force, one that covers too little, or one that covers what is read. */
  ghost predicate ConsentDecides(grants: Grants, master: MasterId, category: string, now: Time, o: Outcome) {
    && (o.ConsentRequired? <==> forall id :: !InForce(grants, master, category, now, id))
    && (o.FieldsNotConsented? <==> exists id :: InForce(grants, master, category, now, id)
                                                && !CoversRequired(grants[id].fields))
    && (HasRead(o) <==> exists id :: InForce(grants, master, category, now, id) && CoversRequired(grants[id].fields))
  }

  /** A request for consent, addressed to the citizen's account if one was found, else to the one who asks. */
  function RequestFor(master: MasterId, actor: Actor, owner: Option<UserId>, category: string, purpose: string,
                      now: Time): Grant {
    Grant(master, if owner.Some? then owner.value else actor.user, purpose, category, REQUIRED_DOCUMENT_FIELDS,
          Status.Pending, now, None, None, None)
  }

  ghost predicate SubjectOk(links: map<Key, Link>, s: Subject) {
    && s.beneficiary in links && links[s.beneficiary].master == s.master && s.beneficiary.system == "dept_b"
    && s.resident in links && links[s.resident].master == s.master && s.resident.system == "dept_a"
  }

  /** Exactly one document was read, now, under a consent in force for the subject and the kind of document. */
  ghost predicate ReadMade(grants: Grants, s: Subject, category: string, now: Time, before: seq<Fetch>,
                           after: seq<Fetch>) {
    && |after| == |before| + 1 && after[..|before|] == before
    && var f := after[|before|];
       && f == Fetch(f.consent, s.master, s.beneficiary, s.resident, category, now)
       && f.consent in grants && Matches(grants[f.consent], s.master, category, Granted)
          && ValidAt(grants[f.consent], now)
  }

  /** A request for consent is waiting, made now if there was none, and no consent is in force. */
  ghost predicate Asked(before: Grants, after: Grants, id: ConsentId, master: MasterId, actor: Actor,
                        owner: Option<UserId>,
                        category: string, purpose: string, now: Time)
  {
    && id in after && Matches(after[id], master, category, Status.Pending)
    && (after == before || (id !in before
       && after == before[id := RequestFor(master, actor, owner, category, purpose, now)]))
    && forall x :: x in after && Matches(after[x], master, category, Granted) ==> !ValidAt(after[x], now)
  }

  /** The request gets as far as resolving the two records. */
  predicate ResolutionTried(actor: Actor, w: World) {
    actor.manages && w.application == Application(false) && w.beneficiary.Some?
  }

  /** Which answers of the departments lead to which outcome, by what is linked in the end. */
  ghost predicate OutcomeFits(o: Outcome, actor: Actor, w: World, links: map<Key, Link>) {
    && (o.Refused? <==> !actor.manages)
    && (o.AlreadyCompleted? <==> actor.manages && w.application == Application(true))
    && (o.NotFound? <==> actor.manages
                         && (w.application.NoApplication?
                            || (w.application == Application(false) && w.beneficiary.None?)))
    && (if ResolutionTried(actor, w)
        then exists r :: ResolutionFits(links, w.beneficiary.value, w.resident, r)
                         && if r.Err? then o == r.error else HasRead(o) || o.ConsentRequired? || o.FieldsNotConsented?
        else o.ConnectorUnavailable? <==> actor.manages && w.application.ApplicationDown?)
    && (HasRead(o) ==> o == if w.document.None? then DocumentNotFound else if w.document.value < 0.7 then QualityFailed
       else Success)
  }

  /** The two identifiers of the ambiguous demo case. */
  const CLEARED := {"BEN-MH-90013", "RES-MH-00103"}

  predicate ResetWithdraws(g: Grant, applications: seq<string>) {
    && (g.status.Granted? || g.status.Pending?)
    && exists i :: 0 <= i < |applications| && Corpus.Occurs(applications[i], g.purpose)
  }

  function AfterReset(g: Grant, applications: seq<string>, now: Time): Grant {
    if ResetWithdraws(g, applications) then g.(status := Revoked, revokedAt := Some(now)) else g
  }

  function AllAfterReset(grants: Grants, applications: seq<string>, now: Time): Grants {
    map id | id in grants :: AfterReset(grants[id], applications, now)
  }

  function WithdrawnBy(grants: Grants, applications: seq<string>): set<ConsentId> {
    set id | id in grants && ResetWithdraws(grants[id], applications)
  }

  /** The reset as far as the consents in `done` are concerned. */
  ghost function ResetOf(grants: Grants, applications: seq<string>, now: Time, done: set<ConsentId>): Grants {
    map id | id in grants :: if id in done then AfterReset(grants[id], applications, now) else grants[id]
  }

  lemma ResetEnds(grants: Grants, applications: seq<string>, now: Time)
    ensures ResetOf(grants, applications, now, {}) == grants && WithdrawnBy(grants, applications) * {} == {}
    ensures ResetOf(grants, applications, now, grants.Keys) == AllAfterReset(grants, applications, now)
    ensures WithdrawnBy(grants, applications) * grants.Keys == WithdrawnBy(grants, applications)
  {
    hide AfterReset, ResetWithdraws;
  }

  lemma OneMoreReset(grants: Grants, applications: seq<string>, now: Time, done: set<ConsentId>, id: ConsentId)
    requires id in grants && id !in done
    ensures var so, withdrawn := ResetOf(grants, applications, now, done), WithdrawnBy(grants, applications);
            if ResetWithdraws(grants[id], applications)
            then && ResetOf(grants, applications, now, done + {id})
                    == so[id := grants[id].(status := Revoked, revokedAt := Some(now))]
                 && withdrawn * (done + {id}) == withdrawn * done + {id}
            else ResetOf(grants, applications, now, done + {id}) == so && withdrawn * (done + {id}) == withdrawn * done
  {
    hide ResetWithdraws;
    var so, next := ResetOf(grants, applications, now, done), ResetOf(grants, applications, now, done + {id});
    assert forall x :: x in grants && x != id ==> next[x] == so[x];
    assert next[id] == AfterReset(grants[id], applications, now) && so[id] == grants[id];
  }

  lemma ResetIsAStep(grants: Grants, applications: seq<string>, now: Time)
    ensures GrantsStep(grants, AllAfterReset(grants, applications, now), now)
    ensures AllAfterReset(grants, applications, now).Keys == grants.Keys
  {
    hide Corpus.Occurs;
  }

  // ---- What may happen to the consents ----

  /** Also what the workflow engine does, which keeps its own grants in the same table. */
  datatype Event =
    | NoChange
    | ConsentAsked(id: ConsentId, g: Grant)
    | ConsentAnswered(id: ConsentId, granted: bool)
    | ConsentWithdrawn(id: ConsentId)
    | DemoReset(applications: seq<string>)
    | EngineGranted(id: ConsentId, g: Grant)

  ghost predicate NoneMatches(grants: Grants, master: MasterId, category: string, status: Status) {
    forall x :: x in grants ==> !Matches(grants[x], master, category, status)
  }

  /** What the gateway asks before it makes a request: the latest grant, if there is one, is not in force. */
  ghost predicate LatestIsNotInForce(grants: Grants, master: MasterId, category: string, now: Time) {
    || NoneMatches(grants, master, category, Granted)
    || exists x :: IsLatest(grants, x, master, category, Granted) && !ValidAt(grants[x], now)
  }

  predicate IsRequest(g: Grant, now: Time) {
    g.status.Pending? && g.createdAt == now && g.decidedAt.None? && g.expiresAt.None? && g.revokedAt.None?
  }

  /** A consent as the workflow engine makes it: granted at once, for thirty days. */
  predicate IsInstantGrant(g: Grant, now: Time) {
    && g.status.Granted? && g.createdAt == now && g.decidedAt == Some(now)
    && g.expiresAt == Some(now + CONSENT_VALIDITY) && g.revokedAt.None?
  }

  function Answered(g: Grant, granted: bool, now: Time): Grant {
    if granted then g.(status := Granted, decidedAt := Some(now), expiresAt := Some(now + CONSENT_VALIDITY))
    else g.(status := Denied, decidedAt := Some(now))
  }

  ghost predicate EventStep(a: Grants, b: Grants, e: Event, now: Time) {
    match e
    case NoChange => b == a
    case ConsentAsked(id, g) =>
      && id !in a && IsRequest(g, now) && NoneMatches(a, g.master, g.category, Status.Pending)
      && LatestIsNotInForce(a, g.master, g.category, now) && b == a[id := g]
    case ConsentAnswered(id, granted) =>
      id in a && a[id].status.Pending? && b == a[id := Answered(a[id], granted, now)]
    case ConsentWithdrawn(id) =>
      id in a && a[id].status.Granted? && b == a[id := a[id].(status := Revoked, revokedAt := Some(now))]
    case DemoReset(applications) => b == AllAfterReset(a, applications, now)
    case EngineGranted(id, g) =>
      id !in a && IsInstantGrant(g, now) && NoneMatches(a, g.master, g.category, Granted) && b == a[id := g]
  }

  lemma NothingHappened(grants: Grants, now: Time)
    ensures EventStep(grants, grants, NoChange, now)
  {}

  /** The event behind a request for an exchange: a new request for consent, if that was made. */
  function AskingEvent(before: Grants, o: Outcome, g: Grant): Event {
    if o.ConsentRequired? && o.consent !in before then ConsentAsked(o.consent, g) else NoChange
  }

  /** The answer when the request does not get that far. */
  function EarlyAnswer(actor: Actor, w: World): Outcome {
    if !actor.manages then Refused
    else match w.application
      case ApplicationDown => ConnectorUnavailable
      case NoApplication => NotFound
      case Application(verified) => if verified then AlreadyCompleted else NotFound
  }

  lemma EarlyOutcome(actor: Actor, w: World, links: map<Key, Link>)
    requires !ResolutionTried(actor, w)
    ensures OutcomeFits(EarlyAnswer(actor, w), actor, w, links) && !HasRead(EarlyAnswer(actor, w))
    ensures !EarlyAnswer(actor, w).ConsentRequired? && !EarlyAnswer(actor, w).FieldsNotConsented?
  {}

  lemma ResolutionExhausts(links: map<Key, Link>, beneficiary: PersonRow, resident: ResidentReply)
    ensures resident.Resident? && BeneficiaryKey(beneficiary) in links && ResidentKey(resident.row) in links ==>
      OnePerson(links, beneficiary, resident.row) || TwoPersons(links, beneficiary, resident.row)
  {}

  lemma LateOutcome(actor: Actor, w: World, links: map<Key, Link>, r: Result<Subject, Outcome>, o: Outcome)
    requires ResolutionTried(actor, w) && ResolutionFits(links, w.beneficiary.value, w.resident, r)
    requires if r.Err? then o == r.error else HasRead(o) || o.ConsentRequired? || o.FieldsNotConsented?
    requires r.Ok? && HasRead(o) ==>
      o == if w.document.None? then DocumentNotFound else if w.document.value < 0.7 then QualityFailed else Success
    ensures OutcomeFits(o, actor, w, links) && !o.Refused? && !o.NotFound? && !o.AlreadyCompleted?
    ensures r.Err? ==> !HasRead(o) && !o.ConsentRequired? && !o.FieldsNotConsented?
  {
    hide TwoPersons, OnePerson;
    ResolutionExhausts(links, w.beneficiary.value, w.resident);
  }

  predicate MayAct(actor: Actor, g: Grant) {
    actor.manages || actor.user == g.citizen
  }

  /** How a decision about a consent ends that is to be in status `from`. */
  ghost predicate Consented(before: Grants, id: ConsentId, actor: Actor, from: Status, error: Option<ConsentError>) {
    && (error == Some(NoSuchConsent) <==> id !in before)
    && (error == Some(NotAllowed) <==> id in before && !MayAct(actor, before[id]))
    && (error == Some(WrongStatus) <==> id in before && MayAct(actor, before[id]) && before[id].status != from)
  }

  class InteropGateway {
    const identities: IdentityStore
    var grants: Grants
    var nextConsent: nat
    ghost var fetches: seq<Fetch>
    /** The time of the last step; the clock does not go back. */
    ghost var clock: Time

    ghost predicate Valid()
      reads this, identities
    {
      && identities.Valid()
      && GrantsOk(grants, clock) && (forall id :: id in grants ==> id < nextConsent)
      && AllJustified(grants, fetches, clock)
    }

    /** Nothing has been cleared by the demo reset: the links behind every read still stand. */
    ghost predicate LinksStand()
      reads this, identities
    {
      AllLinked(identities.links, fetches)
    }

    constructor (identities: IdentityStore, ghost now: Time)
      requires identities.Valid()
      ensures Valid() && LinksStand() && grants == map[] && fetches == [] && clock == now
        && this.identities == identities
    {
      this.identities, grants, nextConsent, fetches, clock := identities, map[], 0, [], now;
    }

    // ---- Deciding about consents ----

    /** One consent changes as a step allows. */
    method Change(id: ConsentId, h: Grant, now: Time)
      requires Valid() && clock <= now && id in grants && MayBecome(grants[id], h, now)
      modifies this`grants, this`clock
      ensures Valid() && clock == now && grants == old(grants)[id := h] && GrantsStep(old(grants), grants, now)
    {
      GrantsOkAfterStep(grants, grants[id := h], clock, now);
      JustifiedAfterStep(grants, grants[id := h], fetches, clock, now);
      grants, clock := grants[id := h], now;
    }

    /** Only the clock moves. */
    ghost method Keep(now: Time)
      requires Valid() && clock <= now
      modifies this`clock
      ensures Valid() && clock == now && GrantsStep(grants, grants, now)
    {
      GrantsOkLater(grants, clock, now);
      GrantsStepToItself(grants, now);
      JustifiedAfterStep(grants, grants, fetches, clock, now);
      clock := now;
    }

    method GrantConsent(actor: Actor, id: ConsentId, now: Time) returns (error: Option<ConsentError>)
      requires Valid() && clock <= now
      modifies this
      ensures Valid() && clock == now && fetches == old(fetches) && GrantsStep(old(grants), grants, now)
      ensures Consented(old(grants), id, actor, Status.Pending, error)
      ensures EventStep(old(grants), grants, if error.None? then ConsentAnswered(id, true) else NoChange, now)
      ensures error.None? ==> ValidAt(grants[id], now) && grants[id].expiresAt == Some(now + CONSENT_VALIDITY)
    {
      hide AllJustified, GrantsOk, GrantsStep;
      if id in grants && MayAct(actor, grants[id]) && grants[id].status.Pending? {
        var h := grants[id].(status := Granted, decidedAt := Some(now), expiresAt := Some(now + CONSENT_VALIDITY));
        Change(id, h, now);
        return None;
      }
      Keep(now);
      error := Some(if id !in grants then NoSuchConsent else if !MayAct(actor, grants[id]) then NotAllowed
        else WrongStatus);
    }

    method DenyConsent(actor: Actor, id: ConsentId, now: Time) returns (error: Option<ConsentError>)
      requires Valid() && clock <= now
      modifies this
      ensures Valid() && clock == now && fetches == old(fetches) && GrantsStep(old(grants), grants, now)
      ensures Consented(old(grants), id, actor, Status.Pending, error)
      ensures EventStep(old(grants), grants, if error.None? then ConsentAnswered(id, false) else NoChange, now)
    {
      hide AllJustified, GrantsOk, GrantsStep;
      if id in grants && MayAct(actor, grants[id]) && grants[id].status.Pending? {
        Change(id, grants[id].(status := Denied, decidedAt := Some(now)), now);
        return None;
      }
      Keep(now);
      error := Some(if id !in grants then NoSuchConsent else if !MayAct(actor, grants[id]) then NotAllowed
        else WrongStatus);
    }

    method RevokeConsent(actor: Actor, id: ConsentId, now: Time) returns (error: Option<ConsentError>)
      requires Valid() && clock <= now
      modifies this
      ensures Valid() && clock == now && fetches == old(fetches) && GrantsStep(old(grants), grants, now)
      ensures Consented(old(grants), id, actor, Granted, error)
      ensures EventStep(old(grants), grants, if error.None? then ConsentWithdrawn(id) else NoChange, now)
    {
      hide AllJustified, GrantsOk, GrantsStep;
      if id in grants && MayAct(actor, grants[id]) && grants[id].status.Granted? {
        Change(id, grants[id].(status := Revoked, revokedAt := Some(now)), now);
        return None;
      }
      Keep(now);
      error := Some(if id !in grants then NoSuchConsent else if !MayAct(actor, grants[id]) then NotAllowed
        else WrongStatus);
    }

    // ---- The exchange ----

    method FindConsent(master: MasterId, category: string, status: Status) returns (id: Option<ConsentId>)
      ensures id.None? ==> forall x :: x in grants ==> !Matches(grants[x], master, category, status)
      ensures id.Some? ==> IsLatest(grants, id.value, master, category, status)
    {
      var rest := set x | x in grants && Matches(grants[x], master, category, status);
      ghost var all := rest;
      id := None;
      while rest != {}
        invariant rest <= all
        invariant id.None? ==> rest == all
        invariant id.Some? ==> id.value in all && forall x :: x in all - rest ==>
          grants[x].createdAt <= grants[id.value].createdAt
        decreases rest
      {
        var x :| x in rest;
        if id.None? || grants[x].createdAt > grants[id.value].createdAt {
          id := Some(x);
        }
        rest := rest - {x};
      }
      forall x | x in grants && Matches(grants[x], master, category, status) ensures x in all {}
    }

    lemma StepKeepsLink(a: Registry, b: Registry, k: Key)
      requires RegistryStep(a, b) && k in a.links
      ensures k in b.links && b.links[k] == a.links[k]
    {}

    /** Both sides are resolved, Department B's first; a doubt on either side or two persons stop the exchange. */
    method ResolveBoth(beneficiary: PersonRow, resident: ResidentReply, m: Matcher)
      returns (r: Result<Subject, Outcome>)
      requires identities.Valid()
      modifies identities
      ensures identities.Valid() && RegistryStep(old(identities.Rows()), identities.Rows())
      ensures r.Ok? ==> SubjectOk(identities.links, r.value)
      ensures r.Ok? ==> resident.Resident? && r.value.resident == ResidentKey(resident.row)
      ensures r.Ok? ==> r.value.beneficiary == BeneficiaryKey(beneficiary)
      ensures ResolutionFits(identities.links, beneficiary, resident, r)
    {
      hide RegistryOk, RegistryStep, IsBest;
      ghost var start := identities.Rows();
      var b, _, _ := identities.ResolvePerson(m, Person(beneficiary.name, beneficiary.mobile),
        BeneficiaryKey(beneficiary));
      if b.Ambiguous? {
        return Err(IdentityAmbiguous(BeneficiaryKey(beneficiary), b.candidate));
      }
      if resident.ResidentDown? {
        return Err(ConnectorUnavailable);
      }
      if resident.NoResident? {
        return Err(SourceRecordNotFound);
      }
      ghost var middle := identities.Rows();
      var a, _, _ := identities.ResolvePerson(m, Person(resident.row.name, resident.row.mobile),
        ResidentKey(resident.row));
      RegistryStepTransitive(start, middle, identities.Rows());
      StepKeepsLink(middle, identities.Rows(), BeneficiaryKey(beneficiary));
      if a.Ambiguous? {
        return Err(IdentityAmbiguous(ResidentKey(resident.row), a.candidate));
      }
      if a.master != b.master {
        return Err(IdentityConflict);
      }
      r := Ok(Subject(b.master, BeneficiaryKey(beneficiary), ResidentKey(resident.row)));
    }

    lemma NoneInForce(grants: Grants, now: Time, master: MasterId, category: string, latest: Option<ConsentId>)
      requires GrantsOk(grants, now)
      requires latest.None? ==> forall x :: x in grants ==> !Matches(grants[x], master, category, Granted)
      requires latest.Some? ==> IsLatest(grants, latest.value, master, category, Granted)
                                && !ValidAt(grants[latest.value], now)
      ensures forall x :: x in grants && Matches(grants[x], master, category, Granted) ==> !ValidAt(grants[x], now)
    {
      forall x | x in grants && Matches(grants[x], master, category, Granted) ensures !ValidAt(grants[x], now) {
        if ValidAt(grants[x], now) { LatestGrantDecides(grants, now, latest.value, master, category, x); }
      }
    }

    /** No consent in force: the waiting request is found, or a new one is made. Nothing is read. */
    method AskForConsent(actor: Actor, s: Subject, category: string, purpose: string, owner: Option<UserId>,
                         now: Time, latest: Option<ConsentId>)
      returns (id: ConsentId)
      requires Valid() && clock == now
      requires latest.None? ==> forall x :: x in grants ==> !Matches(grants[x], s.master, category, Granted)
      requires latest.Some? ==> IsLatest(grants, latest.value, s.master, category, Granted)
                                && !ValidAt(grants[latest.value], now)
      modifies this`grants, this`nextConsent
      ensures Valid() && GrantsStep(old(grants), grants, now)
      ensures Asked(old(grants), grants, id, s.master, actor, owner, category, purpose, now)
      ensures EventStep(old(grants), grants, AskingEvent(old(grants), ConsentRequired(id),
                                                         RequestFor(s.master, actor, owner, category, purpose, now)),
                                                           now)
    {
      hide AllJustified, GrantsOk;
      var pending := FindConsent(s.master, category, Status.Pending);
      if pending.Some? {
        GrantsStepToItself(grants, now);
        NoneInForce(grants, now, s.master, category, latest);
        return pending.value;
      }
      var g := RequestFor(s.master, actor, owner, category, purpose, now);
      GrantsOkAfterRequest(grants, now, nextConsent, g, latest);
      assert GrantsStep(grants, grants[nextConsent := g], now);
      JustifiedAfterStep(grants, grants[nextConsent := g], fetches, now, now);
      id := nextConsent;
      grants, nextConsent := grants[id := g], id + 1;
    }

    /** Field by field consent is checked before Department A is asked for anything. */
    method ExecuteExchange(s: Subject, consent: ConsentId, category: string, now: Time, document: Option<real>)
      returns (o: Outcome)
      requires Valid() && clock == now && consent in grants
      requires Matches(grants[consent], s.master, category, Granted) && ValidAt(grants[consent], now)
      modifies this`fetches
      ensures Valid() && (HasRead(o) || o.FieldsNotConsented?)
      ensures fetches == old(fetches) + if HasRead(o)
        then [Fetch(consent, s.master, s.beneficiary, s.resident, category, now)] else []
      ensures HasRead(o) <==> CoversRequired(grants[consent].fields)
      ensures HasRead(o) ==> o == if document.None? then DocumentNotFound
        else if document.value < 0.7 then QualityFailed else Success
    {
      if !CoversRequired(grants[consent].fields) {
        return FieldsNotConsented;
      }
      assert GrantOk(grants[consent], now);
      fetches := fetches + [Fetch(consent, s.master, s.beneficiary, s.resident, category, now)];
      o := if document.None? then DocumentNotFound else if document.value < 0.7 then QualityFailed else Success;
    }

    /** The latest grant alone tells whether a consent is in force, and which. */
    lemma LatestGrantAnswers(grants: Grants, now: Time, latest: Option<ConsentId>, master: MasterId, category: string)
      requires GrantsOk(grants, now)
      requires latest.None? ==> forall x :: x in grants ==> !Matches(grants[x], master, category, Granted)
      requires latest.Some? ==> IsLatest(grants, latest.value, master, category, Granted)
      ensures forall id: ConsentId :: InForce(grants, master, category, now, id)
                                      <==> latest == Some(id) && ValidAt(grants[id], now)
    {
      forall id: ConsentId | InForce(grants, master, category, now, id) ensures latest == Some(id) {
        LatestGrantDecides(grants, now, latest.value, master, category, id);
      }
    }

    lemma LatestMatches(grants: Grants, now: Time, id: Option<ConsentId>, master: MasterId, category: string)
      requires GrantsOk(grants, now) && (id.Some? ==> IsLatest(grants, id.value, master, category, Granted))
      ensures id.Some? ==> id.value in grants && Matches(grants[id.value], master, category, Granted)
                           && grants[id.value].expiresAt.Some?
    {
      assert id.Some? ==> GrantOk(grants[id.value], now);
    }

    /** The consent is looked up for the subject; the document is read under it, or consent is asked for. */
    method UnderConsent(actor: Actor, s: Subject, w: World, category: string, purpose: string, now: Time)
      returns (o: Outcome)
      requires Valid() && clock == now && SubjectOk(identities.links, s)
      modifies this`grants, this`nextConsent, this`fetches
      ensures Valid() && GrantsStep(old(grants), grants, now)
      ensures HasRead(o) || o.FieldsNotConsented? || o.ConsentRequired?
      ensures ConsentDecides(old(grants), s.master, category, now, o)
      ensures if HasRead(o) then ReadMade(grants, s, category, now, old(fetches), fetches) else fetches == old(fetches)
      ensures if o.ConsentRequired?
              then Asked(old(grants), grants, o.consent, s.master, actor, w.owner, category, purpose, now)
              else grants == old(grants)
      ensures EventStep(old(grants), grants,
                        AskingEvent(old(grants), o, RequestFor(s.master, actor, w.owner, category, purpose, now)), now)
      ensures HasRead(o) ==> o == if w.document.None? then DocumentNotFound
        else if w.document.value < 0.7 then QualityFailed else Success
    {
      hide AllJustified, GrantsOk, GrantsStep, SubjectOk, IsLatest, Matches, NoneMatches, LatestIsNotInForce;
      var consent := FindConsent(s.master, category, Granted);
      LatestMatches(grants, now, consent, s.master, category);
      LatestGrantAnswers(grants, now, consent, s.master, category);
      GrantsStepToItself(grants, now);
      if consent.None? || (grants[consent.value].expiresAt.Some? && grants[consent.value].expiresAt.value <= now) {
        var id := AskForConsent(actor, s, category, purpose, w.owner, now, consent);
        return ConsentRequired(id);
      }
      o := ExecuteExchange(s, consent.value, category, now, w.document);
      assert fetches + [] == fetches && old(fetches) + [] == old(fetches);
    }

    lemma LinksStillStand(a: Registry, b: Registry, fetches: seq<Fetch>)
      requires RegistryStep(a, b)
      ensures AllLinked(a.links, fetches) ==> AllLinked(b.links, fetches)
    {
      if AllLinked(a.links, fetches) {
        forall i | 0 <= i < |fetches| ensures BothLinked(b.links,
          fetches[i]) { assert BothLinked(a.links, fetches[i]); }
      }
    }

    lemma ReadIsLinked(links: map<Key, Link>, grants: Grants, s: Subject, category: string, now: Time,
                       before: seq<Fetch>, after: seq<Fetch>)
      requires SubjectOk(links, s) && ReadMade(grants, s, category, now, before, after)
      ensures AllLinked(links, before) ==> AllLinked(links, after)
    {}

    /**
     A whole request. Department A's document is read exactly in the last three outcomes, under a consent that is
     in force at that moment for the one person both departments' records resolve to.
     */
    method RequestDocumentExchange(actor: Actor, w: World, category: string, purpose: string, now: Time)
      returns (o: Outcome, ghost s: Subject)
      requires Valid() && clock <= now
      modifies this, identities
      ensures Valid() && clock == now && GrantsStep(old(grants), grants, now)
      ensures RegistryStep(old(identities.Rows()), identities.Rows())
      ensures old(LinksStand()) ==> LinksStand()
      ensures HasRead(o) || o.ConsentRequired? || o.FieldsNotConsented? ==>
        && ConsentDecides(old(grants), s.master, category, now, o)
        && SubjectOk(identities.links, s) && w.beneficiary.Some? && w.resident.Resident?
        && s.beneficiary == BeneficiaryKey(w.beneficiary.value) && s.resident == ResidentKey(w.resident.row)
      ensures if HasRead(o) then ReadMade(grants, s, category, now, old(fetches), fetches) else fetches == old(fetches)
      ensures if o.ConsentRequired?
              then Asked(old(grants), grants, o.consent, s.master, actor, w.owner, category, purpose, now)
              else grants == old(grants)
      ensures EventStep(old(grants), grants,
                        AskingEvent(old(grants), o, RequestFor(s.master, actor, w.owner, category, purpose, now)), now)
      ensures OutcomeFits(o, actor, w, identities.links)
      ensures o.Refused? || o.NotFound? || o.AlreadyCompleted? ==> identities.Rows() == old(identities.Rows())
    {
      hide AllJustified, GrantsOk, GrantsStep, RegistryOk, RegistryStep, AllLinked, SubjectOk, ReadMade, Asked,
        EventStep,
           OutcomeFits, ResolutionFits, ConsentDecides, TwoPersons, OnePerson;
      Keep(now);
      NothingHappened(grants, now);
      StepToItself(identities.Rows());
      s := Subject(0, Key("", "", ""), Key("", "", ""));
      ghost var started, read := identities.Rows(), fetches;
      if !ResolutionTried(actor, w) {
        EarlyOutcome(actor, w, identities.links);
        return EarlyAnswer(actor, w), s;
      }
      var r := ResolveBoth(w.beneficiary.value, w.resident, w.matcher);
      LinksStillStand(started, identities.Rows(), read);
      if r.Err? {
        LateOutcome(actor, w, identities.links, r, r.error);
        return r.error, s;
      }
      s := r.value;
      o := UnderConsent(actor, r.value, w, category, purpose, now);
      LateOutcome(actor, w, identities.links, r, o);
      if HasRead(o) {
        ReadIsLinked(identities.links, grants, r.value, category, now, read, fetches);
      }
    }

    lemma CandidateHadMaster(r: Registry, id: CandidateId)
      requires RegistryOk(r) && id in r.candidates
      ensures r.candidates[id].master in r.masters
    {}

    /** An officer's decision about an open question of identity. */
    method ResolveIdentityCandidate(actor: Actor, id: CandidateId, approve: bool)
      returns (error: Option<DecisionError>, refused: bool)
      requires Valid()
      modifies identities
      ensures Valid() && RegistryStep(old(identities.Rows()), identities.Rows()) && (old(LinksStand()) ==> LinksStand())
      ensures refused <==> !actor.manages
      ensures refused || error.Some? ==> identities.Rows() == old(identities.Rows())
      ensures !refused ==>
        && (error == Some(NoSuchCandidate) <==> id !in old(identities.candidates))
        && (error == Some(AlreadyDecided)
           <==> id in old(identities.candidates) && !old(identities.candidates)[id].status.Pending?)
        && (error == Some(AlreadyLinked) <==>
              id in old(identities.candidates) && old(identities.candidates)[id].status.Pending?
              && old(identities.candidates)[id].key in old(identities.links))
      ensures !refused && error.None? ==>
        var c := old(identities.candidates)[id];
        && identities.candidates == old(identities.candidates)[id :=
           c.(status := if approve then Confirmed else Rejected)]
        && identities.links.Keys == old(identities.links).Keys + {c.key}
        && (identities.links[c.key].master == c.master <==> approve)
    {
      hide AllJustified, GrantsOk, AllLinked, RegistryStep;
      StepToItself(identities.Rows());
      ghost var started := identities.Rows();
      if !actor.manages {
        return None, true;
      }
      refused := false;
      error := identities.Decide(id, approve);
      LinksStillStand(started, identities.Rows(), fetches);
      if error.None? { CandidateHadMaster(started, id); }
    }

    /** The loop over the consents. */
    method WithdrawFor(applications: seq<string>, now: Time) returns (after: Grants, withdrawn: nat)
      ensures after == AllAfterReset(grants, applications, now)
      ensures withdrawn == |WithdrawnBy(grants, applications)|
    {
      hide ResetWithdraws, AllAfterReset, WithdrawnBy, ResetOf;
      var rest, changed := grants.Keys, {};
      ghost var done := {};
      after := grants;
      ResetEnds(grants, applications, now);
      while rest != {}
        invariant rest + done == grants.Keys && rest !! done
        invariant after == ResetOf(grants, applications, now, done)
        invariant changed == WithdrawnBy(grants, applications) * done
        decreases rest
      {
        var id :| id in rest;
        OneMoreReset(grants, applications, now, done, id);
        if ResetWithdraws(grants[id], applications) {
          after := after[id := grants[id].(status := Revoked, revokedAt := Some(now))];
          changed := changed + {id};
        }
        rest, done := rest - {id}, done + {id};
      }
      assert done == grants.Keys;
      withdrawn := |changed|;
    }

    /**
     The demo reset withdraws the open consents of the given applications and clears the ambiguous pair. The
     consents stay in order and every earlier read stays justified; only the links may go.
     */
    method ResetDemoScenario(actor: Actor, applications: seq<string>, now: Time) returns (withdrawn: Option<nat>)
      requires Valid() && clock <= now
      modifies this, identities
      ensures Valid() && clock == now && fetches == old(fetches) && GrantsStep(old(grants), grants, now)
      ensures withdrawn.None? <==> !actor.manages
      ensures withdrawn.None? ==> grants == old(grants) && identities.Rows() == old(identities.Rows())
      ensures EventStep(old(grants), grants, if withdrawn.None? then NoChange else DemoReset(applications), now)
      ensures withdrawn.Some? ==>
        && withdrawn.value == |WithdrawnBy(old(grants), applications)|
        && identities.Rows() == Forgotten(old(identities.Rows()), CLEARED)
    {
      hide AllJustified, GrantsOk, RegistryOk, GrantsStep, AllAfterReset, WithdrawnBy;
      Keep(now);
      if !actor.manages {
        return None;
      }
      var after, n := WithdrawFor(applications, now);
      ResetIsAStep(grants, applications, now);
      GrantsOkAfterStep(grants, after, now, now);
      JustifiedAfterStep(grants, after, fetches, now, now);
      grants := after;
      identities.Forget(CLEARED);
      withdrawn := Some(n);
    }
  }
}
