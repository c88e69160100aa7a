/**
 Runs over the consents of the gateway and of the workflow engine, which share a table
 (app/services/interop_gateway_service.py, app/interop/workflow/definitions.py).
 */
module ConsentRuns {
  import opened Wrappers
  import opened IdentityResolution
  import opened Gateway
  import Corpus

  type States = seq<(Grants, Time)>

  ghost predicate EventAt(states: States, events: seq<Event>, i: nat)
    requires i < |events| && |states| == |events| + 1
  {
    states[i].1 <= states[i + 1].1 && EventStep(states[i].0, states[i + 1].0, events[i], states[i + 1].1)
  }

  /** One event after the other, on a clock that does not go back. */
  ghost predicate IsRun(states: States, events: seq<Event>) {
    |states| == |events| + 1 && forall i :: 0 <= i < |events| ==> EventAt(states, events, i)
  }

  /** No event takes a consent away or reopens it. */
  lemma EventIsAGrantsStep(a: Grants, b: Grants, e: Event, now: Time)
    requires EventStep(a, b, e, now)
    ensures GrantsStep(a, b, now)
  {
    hide NoneMatches, LatestIsNotInForce;
    if e.DemoReset? { ResetIsAStep(a, e.applications, now); }
  }

  /** In every run no consent disappears, nothing decided is open again, and what was denied or revoked stays so. */
  lemma {:induction false} DecisionsAreFinal(states: States, events: seq<Event>, i: nat, j: nat, id: ConsentId)
    requires IsRun(states, events) && i <= j < |states| && id in states[i].0
    ensures id in states[j].0
    ensures states[i].0[id].status.Denied? || states[i].0[id].status.Revoked? ==> states[j].0[id] == states[i].0[id]
    ensures states[i].0[id].status.Granted? ==> states[j].0[id].status.Granted? || states[j].0[id].status.Revoked?
    ensures states[i].0[id].status.Granted? ==>
      states[j].0[id] == states[i].0[id].(status := states[j].0[id].status, revokedAt := states[j].0[id].revokedAt)
    ensures states[i].0[id].status.Granted? && states[j].0[id].status.Granted? ==> states[j].0[id] == states[i].0[id]
  {
    hide EventStep;
    if i < j {
      DecisionsAreFinal(states, events, i, j - 1, id);
      assert EventAt(states, events, j - 1);
      EventIsAGrantsStep(states[j - 1].0, states[j].0, events[j - 1], states[j].1);
      assert MayBecome(states[j - 1].0[id], states[j].0[id], states[j].1);
    }
  }

  // ---- The dates ----

  ghost predicate DatesOk(grants: Grants, now: Time) {
    forall id :: id in grants ==> GrantOk(grants[id], now)
  }

  /** Whatever happens, the dates of every consent fit its status. */
  lemma DatesStayOk(a: Grants, b: Grants, clock: Time, e: Event, now: Time)
    requires DatesOk(a, clock) && clock <= now && EventStep(a, b, e, now)
    ensures DatesOk(b, now)
  {
    EventIsAGrantsStep(a, b, e, now);
    hide NoneMatches, LatestIsNotInForce, AllAfterReset, MayBecome;
    forall id | id in b ensures GrantOk(b[id], now) {
      if id in a { GrantOkAfterStep(a[id], b[id], clock, now); }
    }
  }

  lemma {:induction false} DatesOkThroughout(states: States, events: seq<Event>, i: nat)
    requires IsRun(states, events) && i < |states| && DatesOk(states[0].0, states[0].1)
    ensures DatesOk(states[i].0, states[i].1)
  {
    hide EventStep, DatesOk;
    if i > 0 {
      DatesOkThroughout(states, events, i - 1);
      assert EventAt(states, events, i - 1);
      DatesStayOk(states[i - 1].0, states[i].0, states[i - 1].1, events[i - 1], states[i].1);
    }
  }

  // ---- One consent after the other ----

  /** The engine makes a grant of its own while a request for the same person and kind is waiting. */
  ghost predicate Overtakes(grants: Grants, e: Event) {
    e.EngineGranted? && !NoneMatches(grants, e.g.master, e.g.category, Status.Pending)
  }

  /** The engine's own grant fits in with the other consents exactly when no request is waiting. */
  lemma EngineGrantExactlyWhen(a: Grants, b: Grants, e: Event, clock: Time, now: Time)
    requires GrantsOk(a, clock) && clock <= now && EventStep(a, b, e, now) && e.EngineGranted?
    ensures GrantsOk(b, now) <==> !Overtakes(a, e)
  {
    GrantsOkLater(a, clock, now);
    if Overtakes(a, e) {
      var x :| x in a && Matches(a[x], e.g.master, e.g.category, Status.Pending);
      assert GrantOk(a[x], now) && b[x] == a[x] && b[e.id] == e.g;
      assert Rivals(b[x], b[e.id]) && !RanOutBefore(b[x], b[e.id]) && !RanOutBefore(b[e.id], b[x]);
    } else {
      forall x | x in a ensures !Rivals(a[x], e.g) {
        assert !Matches(a[x], e.g.master, e.g.category, Status.Pending);
        assert !Matches(a[x], e.g.master, e.g.category, Granted);
      }
      forall x, y | x in b && y in b && x != y && Rivals(b[x], b[y])
        ensures RanOutBefore(b[x], b[y]) || RanOutBefore(b[y], b[x]) {
        assert x != e.id && y != e.id;
      }
      forall x | x in b ensures GrantOk(b[x], now) {
        assert x != e.id ==> GrantOk(a[x], now);
      }
    }
  }

  /** Every event of the gateway keeps the consents of a person and kind one after another. */
  lemma GatewayKeepsOrder(a: Grants, b: Grants, clock: Time, e: Event, now: Time)
    requires GrantsOk(a, clock) && clock <= now && EventStep(a, b, e, now) && !e.EngineGranted?
    ensures GrantsOk(b, now)
  {
    hide GrantsOk, GrantsStep, AllAfterReset;
    if e.ConsentAsked? {
      GrantsOkLater(a, clock, now);
      if NoneMatches(a, e.g.master, e.g.category, Granted) {
        GrantsOkAfterRequest(a, now, e.id, e.g, None);
      } else {
        var x :| IsLatest(a, x, e.g.master, e.g.category, Granted) && !ValidAt(a[x], now);
        GrantsOkAfterRequest(a, now, e.id, e.g, Some(x));
      }
    } else {
      EventIsAGrantsStep(a, b, e, now);
      if e.DemoReset? { ResetIsAStep(a, e.applications, now); }
      GrantsOkAfterStep(a, b, clock, now);
    }
  }

  lemma OnlyTheEngineOvertakes(grants: Grants, e: Event)
    ensures Overtakes(grants, e) ==> e.EngineGranted?
  {}

  lemma {:induction false} OrderUpTo(states: States, events: seq<Event>, i: nat)
    requires IsRun(states, events) && i < |states| && GrantsOk(states[0].0, states[0].1)
    requires forall k :: 0 <= k < |events| ==> !Overtakes(states[k].0, events[k])
    ensures GrantsOk(states[i].0, states[i].1)
  {
    hide GrantsOk, EventStep, Overtakes;
    if i > 0 {
      OrderUpTo(states, events, i - 1);
      assert EventAt(states, events, i - 1);
      var a, b := states[i - 1], states[i];
      if events[i - 1].EngineGranted? {
        EngineGrantExactlyWhen(a.0, b.0, events[i - 1], a.1, b.1);
      } else {
        GatewayKeepsOrder(a.0, b.0, a.1, events[i - 1], b.1);
      }
    }
  }

  /**
   With the engine at work as well, the consents stay one after another, so that a person never has two open ones
   and the latest grant decides, exactly as long as the engine overtakes no waiting request.
   */
  lemma OrderIsKeptExactlyWhen(states: States, events: seq<Event>)
    requires IsRun(states, events) && GrantsOk(states[0].0, states[0].1)
    ensures (forall i :: 0 <= i < |states| ==> GrantsOk(states[i].0, states[i].1))
       <==> forall k :: 0 <= k < |events| ==> !Overtakes(states[k].0, events[k])
  {
    hide GrantsOk, EventStep, Overtakes;
    if forall i :: 0 <= i < |states| ==> GrantsOk(states[i].0, states[i].1) {
      forall k: nat | k < |events| ensures !Overtakes(states[k].0, events[k]) {
        assert EventAt(states, events, k);
        OnlyTheEngineOvertakes(states[k].0, events[k]);
        if events[k].EngineGranted? {
          EngineGrantExactlyWhen(states[k].0, states[k + 1].0, events[k], states[k].1, states[k + 1].1);
        }
      }
    }
    if forall k :: 0 <= k < |events| ==> !Overtakes(states[k].0, events[k]) {
      forall i: nat | i < |states| ensures GrantsOk(states[i].0, states[i].1) { OrderUpTo(states, events, i); }
    }
  }

  // ---- The demo reset ----

  /** A reset withdraws the consents that wait or are granted and whose purpose spells out one of the applications. */
  lemma ResetWithdrawsExactlyWhen(g: Grant, applications: seq<string>)
    ensures ResetWithdraws(g, applications)
       <==> && g.status in {Status.Pending, Granted}
            && exists a, before, after :: a in applications && g.purpose == before + a + after
  {
    hide Corpus.Occurs;
    if ResetWithdraws(g, applications) {
      var i :| 0 <= i < |applications| && Corpus.Occurs(applications[i], g.purpose);
      Corpus.OccursExactlyWhen(applications[i], g.purpose);
    }
    if a, before, after :| a in applications && g.purpose == before + a + after {
      Corpus.OccursExactlyWhen(a, g.purpose);
      var i :| 0 <= i < |applications| && applications[i] == a;
    }
  }

  /** It clears the links and questions of the two identifiers of the ambiguous demo case, and no other link. */
  lemma ResetClearsThePair(r: Registry, k: Key)
    ensures k in Forgotten(r, CLEARED).links
       <==> k in r.links && k.value != "BEN-MH-90013" && k.value != "RES-MH-00103"
    ensures k in Forgotten(r, CLEARED).links ==> Forgotten(r, CLEARED).links[k] == r.links[k]
  {}

  // ---- From the request to the read ----

  /** The three fields that are read are what a consent has to name. */
  lemma CoversRequiredExactlyWhen(fields: seq<string>)
    ensures CoversRequired(fields) <==> "reference" in fields && "status" in fields && "issued_on" in fields
  {
    assert REQUIRED_DOCUMENT_FIELDS[0] == "reference" && REQUIRED_DOCUMENT_FIELDS[1] == "status";
    assert REQUIRED_DOCUMENT_FIELDS[2] == "issued_on";
  }

  /** The event takes the consent back: by its own withdrawal, or as one that a demo reset withdraws. */
  ghost predicate TakesBack(grants: Grants, e: Event, id: ConsentId) {
    e == ConsentWithdrawn(id) || (e.DemoReset? && id in grants && ResetWithdraws(grants[id], e.applications))
  }

  lemma GrantStaysOneStep(a: Grants, b: Grants, e: Event, now: Time, id: ConsentId)
    requires EventStep(a, b, e, now) && id in a && a[id].status.Granted? && !TakesBack(a, e, id)
    ensures id in b && b[id] == a[id]
  {
    hide ResetWithdraws, NoneMatches, LatestIsNotInForce;
  }

  lemma {:induction false} GrantStays(states: States, events: seq<Event>, i: nat, j: nat, id: ConsentId)
    requires IsRun(states, events) && i <= j < |states| && id in states[i].0 && states[i].0[id].status.Granted?
    requires forall m :: i <= m < j ==> !TakesBack(states[m].0, events[m], id)
    ensures id in states[j].0 && states[j].0[id] == states[i].0[id]
  {
    hide EventStep, TakesBack;
    if i < j {
      GrantStays(states, events, i, j - 1, id);
      assert EventAt(states, events, j - 1);
      GrantStaysOneStep(states[j - 1].0, states[j].0, events[j - 1], states[j].1, id);
    }
  }

  /** For whom, for what and addressed to whom a consent is never changes, and one still waiting is as it was made. */
  lemma {:induction false} RequestStays(states: States, events: seq<Event>, i: nat, j: nat, id: ConsentId)
    requires IsRun(states, events) && i <= j < |states| && id in states[i].0
    ensures id in states[j].0 && states[j].0[id].citizen == states[i].0[id].citizen
    ensures states[j].0[id].fields == states[i].0[id].fields
    ensures states[j].0[id].status.Pending? ==> states[j].0[id] == states[i].0[id]
  {
    hide EventStep;
    if i < j {
      RequestStays(states, events, i, j - 1, id);
      assert EventAt(states, events, j - 1);
      EventIsAGrantsStep(states[j - 1].0, states[j].0, events[j - 1], states[j].1);
      assert MayBecome(states[j - 1].0[id], states[j].0[id], states[j].1);
    }
  }

  const DAY: Time := 86400

  /**
   The consent that an exchange asks for is enough for it: once granted, and as long as nothing takes it back, it is in
   force for thirty days, and every exchange in that time that gets as far as the consents reads the document.
   */
  lemma GrantedRequestLeadsToRead(states: States, events: seq<Event>, i: nat, j: nat, k: nat, id: ConsentId,
                                  s: Subject, actor: Actor, owner: Option<UserId>, category: string, purpose: string,
                                  now: Time, o: Outcome)
    requires IsRun(states, events) && i < j < k < |states|
    requires events[i] == ConsentAsked(id, RequestFor(s.master, actor, owner, category, purpose, states[i + 1].1))
    requires events[j] == ConsentAnswered(id, true)
    requires forall m :: j < m < k ==> !TakesBack(states[m].0, events[m], id)
    requires ConsentDecides(states[k].0, s.master, category, now, o)
    ensures InForce(states[k].0, s.master, category, now, id) <==> now < states[j + 1].1 + 30 * DAY
    ensures now < states[j + 1].1 + 30 * DAY ==> HasRead(o)
  {
    hide TakesBack, NoneMatches, LatestIsNotInForce, AllAfterReset;
    assert EventAt(states, events, i) && EventAt(states, events, j);
    RequestStays(states, events, i + 1, j, id);
    GrantStays(states, events, j + 1, k, id);
    assert InForce(states[k].0, s.master, category, now, id) <==> now < states[j + 1].1 + 30 * DAY;
  }

  /**
   Whenever the consent that an exchange asked for is looked at, the account found for the citizen, or the one who
   asked if none was found, may grant or deny it while it waits and withdraw it once granted; nobody else may, unless
   they manage the exchange.
   */
  lemma CitizenDecides(states: States, events: seq<Event>, i: nat, k: nat, id: ConsentId, master: MasterId,
                       asker: Actor, owner: Option<UserId>, category: string, purpose: string, actor: Actor,
                       from: Status, error: Option<ConsentError>)
    requires IsRun(states, events) && i < k < |states|
    requires events[i] == ConsentAsked(id, RequestFor(master, asker, owner, category, purpose, states[i + 1].1))
    requires Consented(states[k].0, id, actor, from, error)
    ensures id in states[k].0
    ensures error.None? || error == Some(WrongStatus)
       <==> actor.manages || actor.user == if owner.Some? then owner.value else asker.user
    ensures error == Some(WrongStatus) ==> states[k].0[id].status != from
    ensures error.None? ==> states[k].0[id].status == from
    ensures error != Some(NoSuchConsent)
  {
    hide NoneMatches, LatestIsNotInForce, AllAfterReset;
    assert EventAt(states, events, i);
    RequestStays(states, events, i + 1, k, id);
    assert states[k].0[id].citizen == if owner.Some? then owner.value else asker.user;
    assert MayAct(actor, states[k].0[id]) <==> error != Some(NotAllowed);
    assert error.Some? ==> error.value.NoSuchConsent? || error.value.NotAllowed? || error.value.WrongStatus?;
  }

  /** Every consent asked for is one that an exchange asks for, and every grant of the engine's covers what is read. */
  ghost predicate EnoughIsAsked(e: Event) {
    && (e.ConsentAsked? ==>
          exists actor, owner ::
            e.g == RequestFor(e.g.master, actor, owner, e.g.category, e.g.purpose, e.g.createdAt))
    && (e.EngineGranted? ==> CoversRequired(e.g.fields))
  }

  lemma NewConsent(a: Grants, b: Grants, e: Event, now: Time, id: ConsentId)
    requires EventStep(a, b, e, now) && id in b && id !in a && EnoughIsAsked(e)
    ensures CoversRequired(b[id].fields)
  {
    hide NoneMatches, LatestIsNotInForce;
    CoversRequiredExactlyWhen(REQUIRED_DOCUMENT_FIELDS);
  }

  lemma {:induction false} AllCover(states: States, events: seq<Event>, k: nat)
    requires IsRun(states, events) && k < |states| && states[0].0 == map[]
    requires forall m :: 0 <= m < k ==> EnoughIsAsked(events[m])
    ensures forall id :: id in states[k].0 ==> CoversRequired(states[k].0[id].fields)
  {
    hide NoneMatches, LatestIsNotInForce, AllAfterReset, CoversRequired;
    if k > 0 {
      AllCover(states, events, k - 1);
      assert EventAt(states, events, k - 1) && EnoughIsAsked(events[k - 1]);
      CoversRequiredExactlyWhen(REQUIRED_DOCUMENT_FIELDS);
      forall id | id in states[k].0 ensures CoversRequired(states[k].0[id].fields) {
        if id in states[k - 1].0 {
          RequestStays(states, events, k - 1, k, id);
        } else {
          NewConsent(states[k - 1].0, states[k].0, events[k - 1], states[k].1, id);
        }
      }
    }
  }

  /** The fields of a consent are as they were asked for, so the exchange never finds one that covers too little. */
  lemma NeverTooLittle(states: States, events: seq<Event>, k: nat, master: MasterId, category: string, now: Time,
    o: Outcome)
    requires IsRun(states, events) && k < |states| && states[0].0 == map[]
    requires forall m :: 0 <= m < k ==> EnoughIsAsked(events[m])
    requires ConsentDecides(states[k].0, master, category, now, o)
    ensures !o.FieldsNotConsented?
  {
    AllCover(states, events, k);
  }

  // ---- Reads by the workflow engine ----

  /** The grant that the engine makes is the latest, so the next lemma covers reads under it as well. */
  lemma EngineGrantIsLatest(a: Grants, b: Grants, e: Event, now: Time)
    requires EventStep(a, b, e, now) && e.EngineGranted?
    ensures IsLatest(b, e.id, e.g.master, e.g.category, Granted)
  {}

  /**
   The workflow engine's consent step takes the latest grant without looking at its end, or makes one, and a later
   step reads under it without looking at it again. The read is justified exactly when the grant has not run out,
   covers the fields and has not been withdrawn before the read.
   */
  lemma WorkflowReadIsJustified(states: States, events: seq<Event>, i: nat, j: nat, f: Fetch)
    requires IsRun(states, events) && i <= j < |states| && DatesOk(states[0].0, states[0].1)
    requires IsLatest(states[i].0, f.consent, f.master, f.category, Granted) && f.at == states[j].1
    ensures f.consent in states[j].0 && states[j].0[f.consent].expiresAt.Some?
    ensures var g := states[j].0[f.consent];
            Justified(states[j].0, f)
            <==> f.at < g.expiresAt.value && CoversRequired(g.fields)
                 && (g.status.Revoked? ==> g.revokedAt == Some(f.at))
  {
    hide EventStep;
    DecisionsAreFinal(states, events, i, j, f.consent);
    DatesOkThroughout(states, events, i);
    DatesOkThroughout(states, events, j);
    assert GrantOk(states[i].0[f.consent], states[i].1) && GrantOk(states[j].0[f.consent], states[j].1);
  }

  // ---- Examples ----

  function Request(at: Time): Grant {
    Grant(0, "citizen", "purpose", "certificate", REQUIRED_DOCUMENT_FIELDS, Status.Pending, at, None, None, None)
  }

  /** A grant of all the fields, made at once. */
  function InstantGrant(at: Time): Grant {
    Grant(0, "citizen", "purpose", "certificate", REQUIRED_DOCUMENT_FIELDS, Granted, at, Some(at),
          Some(at + CONSENT_VALIDITY), None)
  }

  /** The engine picks a grant that has run out, and reads under one that is withdrawn between its two steps. */
  lemma WorkflowReadsAnyway(k: Key)
    ensures var f := Fetch(0, 0, k, k, "certificate", CONSENT_VALIDITY);
            var grants := map[0 := InstantGrant(0)];
            GrantsOk(grants, f.at) && IsLatest(grants, 0, f.master, f.category, Granted) && !Justified(grants, f)
    ensures var f, g := Fetch(0, 0, k, k, "certificate", 2), InstantGrant(0).(status := Revoked, revokedAt := Some(1));
            var states := [(map[0 := InstantGrant(0)], 0), (map[0 := g], 1), (map[0 := g], 2)];
            && IsRun(states, [ConsentWithdrawn(0), NoChange])
               && (forall i :: 0 <= i < 3 ==> GrantsOk(states[i].0, states[i].1))
            && IsLatest(states[0].0, 0, f.master, f.category, Granted) && !Justified(states[2].0, f)
  {}

  /**
   A request waits, the engine grants itself a consent, and then the citizen grants the waiting one. When the engine's
   has run out it is still the latest, and the gateway asks again although the citizen's is in force.
   */
  lemma EngineOvertakes()
    ensures var first, engine := Request(0), InstantGrant(1);
            var second := Answered(first, true, 2);
            var states := [(map[], 0), (map[0 := first], 0), (map[0 := first, 1 := engine], 1),
                           (map[0 := second, 1 := engine], 2)];
            var last, at := states[3].0, 1 + CONSENT_VALIDITY;
            && IsRun(states, [ConsentAsked(0, first), EngineGranted(1, engine), ConsentAnswered(0, true)])
            && GrantsOk(states[1].0, 0) && Overtakes(states[1].0, EngineGranted(1, engine))
            && InForce(last, 0, "certificate", at, 0) && IsLatest(last, 1, 0, "certificate", Granted)
            && !ValidAt(last[1], at) && LatestIsNotInForce(last, 0, "certificate", at)
  {
  }
}
