/** One person across several systems: evidence, thresholds and links (app/interop/identity_resolution.py). */
module IdentityResolution {
  import opened Wrappers
  import opened Arithmetic
  import Ordering

  type MasterId = nat
  type CandidateId = nat

  /** An identifier of one external system. */
  datatype Key = Key(system: string, idType: string, value: string)

  datatype Mobile = NoMobile | SameMobile | OtherMobile

  /** What a comparison of two records found. */
  datatype Evidence = Evidence(nameScore: real, mobile: Mobile)

  /** Why an identifier is linked to its master. */
  datatype Reason = FirstSeen | Compared(evidence: Evidence) | OfficerMatch | OfficerDistinct

  datatype Link = Link(master: MasterId, confidence: real, reason: Reason)

  datatype Decision = Pending | Confirmed | Rejected

  datatype Candidate = Candidate(master: MasterId, key: Key, score: real, status: Decision)

  const CONFIRM_THRESHOLD := 0.90
  const CANDIDATE_THRESHOLD := 0.55

  // ---- Evidence ----

  /** The last ten digits of a number as it was written. */
  function Normalize(isDigit: char -> bool, mobile: string): string {
    var digits := Ordering.Filter(isDigit, mobile);
    if |digits| <= 10 then digits else digits[|digits| - 10..]
  }

  function CompareMobiles(isDigit: char -> bool, mobile: Option<string>, other: Option<string>): Mobile {
    if mobile.None? || mobile.value == "" || other.None? || other.value == "" then NoMobile
    else if Normalize(isDigit, other.value) == Normalize(isDigit, mobile.value) then SameMobile
    else OtherMobile
  }

  function Least(a: real, b: real): real { if b < a then b else a }
  function Greatest(a: real, b: real): real { if b > a then b else a }

  function ScoreOf(e: Evidence): real {
    var score := if e.mobile.SameMobile? then Greatest(e.nameScore, 0.6 * 1.0 + 0.4 * e.nameScore) else e.nameScore;
    if e.mobile.OtherMobile? then Least(score, CONFIRM_THRESHOLD - 0.05) else score
  }

  /** Two mobiles that differ keep a score under the line for linking. */
  lemma ConflictStaysBelow(e: Evidence)
    requires e.mobile.OtherMobile?
    ensures Round3(ScoreOf(e)) <= 0.85 < CONFIRM_THRESHOLD
  {
    Round3Monotone(ScoreOf(e), 0.85);
    assert RoundHalfEven(850.0) == 850;
  }

  /** Equal mobiles lift the score over the line for asking. */
  lemma SameMobileStaysAbove(e: Evidence)
    requires e.mobile.SameMobile? && e.nameScore >= 0.0
    ensures Round3(ScoreOf(e)) >= 0.6 > CANDIDATE_THRESHOLD
  {
    Round3Monotone(0.6, ScoreOf(e));
    assert RoundHalfEven(600.0) == 600;
  }

  lemma NoDigits(isDigit: char -> bool, s: string)
    ensures Normalize(isDigit, s) == "" <==> forall c :: c in s ==> !isDigit(c)
  {
    var digits := Ordering.Filter(isDigit, s);
    forall c ensures c in digits <==> c in s && isDigit(c) { Ordering.FilterMembers(isDigit, s, c); }
    assert digits != "" ==> digits[0] in digits;
  }

  /**
   The comparison is by digits only: entries agree on no digits at all exactly when neither has one, so the same
   mobile is evidence exactly when an entry has a digit.
   */
  lemma EntriesWithoutDigitsAgree(isDigit: char -> bool, a: string, b: string)
    requires a != "" && b != ""
    ensures CompareMobiles(isDigit, Some(a), Some(b)) == SameMobile && Normalize(isDigit, a) == ""
       <==> forall c :: c in a || c in b ==> !isDigit(c)
  {
    NoDigits(isDigit, a);
    NoDigits(isDigit, b);
  }

  // ---- The tables ----

  datatype Registry = Registry(
    masters: map<MasterId, string>, links: map<Key, Link>, candidates: map<CandidateId, Candidate>, nextId: nat)

  ghost predicate LinkOk(l: Link, masters: map<MasterId, string>) {
    && l.master in masters
    && (l.reason.Compared? ==> l.confidence == Round3(ScoreOf(l.reason.evidence)) && l.confidence >= CONFIRM_THRESHOLD)
  }

  ghost predicate IsPending(r: Registry, id: CandidateId, master: MasterId, system: string, value: string) {
    id in r.candidates && r.candidates[id].status.Pending? && r.candidates[id].master == master
    && r.candidates[id].key.system == system && r.candidates[id].key.value == value
  }

  /**
   Links and candidates name existing masters; a link the algorithm made is at or above the threshold; no open
   question is asked twice.
   */
  ghost predicate RegistryOk(r: Registry) {
    && (forall m :: m in r.masters ==> m < r.nextId)
    && (forall id :: id in r.candidates ==> id < r.nextId && r.candidates[id].master in r.masters)
    && (forall k :: k in r.links ==> LinkOk(r.links[k], r.masters))
    && (forall a, b, m, s, v :: IsPending(r, a, m, s, v) && IsPending(r, b, m, s, v) ==> a == b)
  }

  /** A link the algorithm made never rests on a comparison whose mobiles differ. */
  lemma NoLinkAcrossConflict(r: Registry, k: Key)
    requires RegistryOk(r) && k in r.links && r.links[k].reason.Compared?
    ensures r.links[k].confidence >= 0.90 && !r.links[k].reason.evidence.mobile.OtherMobile?
  {
    assert LinkOk(r.links[k], r.masters);
    if r.links[k].reason.evidence.mobile.OtherMobile? { ConflictStaysBelow(r.links[k].reason.evidence); }
  }

  /** What one operation may do: add rows, and decide open questions. Links and decisions stay. */
  ghost predicate RegistryStep(a: Registry, b: Registry) {
    && (forall m :: m in a.masters ==> m in b.masters && b.masters[m] == a.masters[m])
    && (forall k :: k in a.links ==> k in b.links && b.links[k] == a.links[k])
    && (forall id :: id in a.candidates ==>
          && id in b.candidates
          && b.candidates[id].(status := a.candidates[id].status) == a.candidates[id]
          && (!a.candidates[id].status.Pending? ==> b.candidates[id] == a.candidates[id]))
  }

  lemma RegistryStepTransitive(a: Registry, b: Registry, c: Registry)
    requires RegistryStep(a, b) && RegistryStep(b, c)
    ensures RegistryStep(a, c)
  {
    forall id | id in a.candidates
      ensures id in c.candidates && c.candidates[id].(status := a.candidates[id].status) == a.candidates[id]
      ensures !a.candidates[id].status.Pending? ==> c.candidates[id] == a.candidates[id]
    {
      assert id in b.candidates;
      assert b.candidates[id].(status := a.candidates[id].status) == a.candidates[id];
    }
  }

  // ---- The best match ----

  datatype Match = Match(master: MasterId, score: real, evidence: Evidence)

  /** The person described by one system, and what the other systems say now about the mobile of an identifier. */
  datatype Person = Person(name: string, mobile: Option<string>)

  datatype Matcher = Matcher(similarity: (string, string) -> real, isDigit: char -> bool,
    mobileOf: Key -> Option<string>) {
    ghost predicate Valid() {
      forall a, b :: 0.0 <= similarity(a, b) <= 1.0
    }
  }

  function EvidenceFor(m: Matcher, p: Person, masterName: string, k: Key): Evidence {
    Evidence(m.similarity(p.name, masterName), CompareMobiles(m.isDigit, p.mobile, m.mobileOf(k)))
  }

  ghost function EvidenceIn(r: Registry, m: Matcher, p: Person, k: Key): Evidence
    requires k in r.links && r.links[k].master in r.masters
  {
    EvidenceFor(m, p, r.masters[r.links[k].master], k)
  }

  ghost predicate Stands(r: Registry, compared: set<Key>, master: MasterId) {
    exists k :: k in compared && k in r.links && r.links[k].master == master
  }

  ghost predicate OnePerMaster(r: Registry, compared: set<Key>)
    requires forall k :: k in compared ==> k in r.links
  {
    forall a, b :: a in compared && b in compared && r.links[a].master == r.links[b].master ==> a == b
  }

  ghost predicate BestOf(r: Registry, m: Matcher, p: Person, compared: set<Key>, best: Option<Match>)
    requires forall k :: k in compared ==> k in r.links && r.links[k].master in r.masters
  {
    && (best.None? <==> compared == {})
    && (forall k :: k in compared ==> best.Some? && Round3(ScoreOf(EvidenceIn(r, m, p, k))) <= best.value.score)
    && (best.Some? ==> exists k :: k in compared && best.value.master == r.links[k].master
                                && best.value.evidence == EvidenceIn(r, m, p, k)
                                && best.value.score == Round3(ScoreOf(EvidenceIn(r, m, p, k))))
  }

  /**
   `compared` holds exactly one identifier of each master that another system knows; the best match is the highest
   rounded score among them.
   */
  ghost predicate IsBest(r: Registry, m: Matcher, p: Person, exclude: string, compared: set<Key>, best: Option<Match>) {
    && (forall k :: k in compared ==> k in r.links && k.system != exclude && r.links[k].master in r.masters)
    && (forall k :: k in r.links && k.system != exclude ==> Stands(r, compared, r.links[k].master))
    && OnePerMaster(r, compared)
    && BestOf(r, m, p, compared, best)
  }

  /** One more comparison: a score is only compared with the rounded best, and that is enough. */
  lemma BestOfOneMore(r: Registry, m: Matcher, p: Person, compared: set<Key>, best: Option<Match>, k: Key)
    requires forall x :: x in compared + {k} ==> x in r.links && r.links[x].master in r.masters
    requires BestOf(r, m, p, compared, best)
    ensures var e := EvidenceIn(r, m, p, k);
            BestOf(r, m, p, compared + {k},
                   if best.None? || ScoreOf(e) > best.value.score
                     then Some(Match(r.links[k].master, Round3(ScoreOf(e)), e)) else best)
  {
    hide ScoreOf, EvidenceFor, Round3;
    var e := EvidenceIn(r, m, p, k);
    var score := ScoreOf(e);
    if best.Some? {
      var x :| x in compared && best.value.score == Round3(ScoreOf(EvidenceIn(r, m, p, x)))
               && best.value.master == r.links[x].master && best.value.evidence == EvidenceIn(r, m, p, x);
      Round3Monotone(ScoreOf(EvidenceIn(r, m, p, x)), ScoreOf(EvidenceIn(r, m, p, x)));
      if score > best.value.score {
        Round3Monotone(best.value.score, score);
      } else {
        Round3Monotone(score, best.value.score);
        assert x in compared + {k};
      }
    }
    assert k in compared + {k};
  }

  /** If some compared record has the same mobile, the best score is above the line for asking. */
  lemma SameMobileIsNoticed(r: Registry, m: Matcher, p: Person, compared: set<Key>, best: Option<Match>, k: Key)
    requires m.Valid() && (forall x :: x in compared ==> x in r.links && r.links[x].master in r.masters)
    requires BestOf(r, m, p, compared, best) && k in compared && EvidenceIn(r, m, p, k).mobile.SameMobile?
    ensures best.Some? && best.value.score >= 0.6
  {
    SameMobileStaysAbove(EvidenceIn(r, m, p, k));
  }

  // ---- Operations on the tables ----

  datatype Resolution =
    | Known(master: MasterId, confidence: real)
    | AutoLinked(master: MasterId, confidence: real)
    | Ambiguous(master: MasterId, score: real, candidate: CandidateId)
    | NewPerson(master: MasterId)

  function WithLink(r: Registry, k: Key, l: Link): Registry {
    r.(links := r.links[k := l])
  }

  /** A new master with its first identifier. */
  function WithNewMaster(r: Registry, name: string, k: Key, reason: Reason): Registry {
    r.(masters := r.masters[r.nextId := name], links := r.links[k := Link(r.nextId, 1.0, reason)], nextId :=
      r.nextId + 1)
  }

  function WithCandidate(r: Registry, c: Candidate): Registry {
    r.(candidates := r.candidates[r.nextId := c], nextId := r.nextId + 1)
  }

  /** A question that is open already is not asked again. */
  ghost function Queued(r: Registry, c: Candidate): Registry {
    if exists id :: IsPending(r, id, c.master, c.key.system, c.key.value) then r else WithCandidate(r, c)
  }

  function WithDecision(r: Registry, id: CandidateId, d: Decision): Registry
    requires id in r.candidates
  {
    r.(candidates := r.candidates[id := r.candidates[id].(status := d)])
  }

  lemma SamePending(r: Registry, after: Registry)
    requires RegistryOk(r) && r.candidates == after.candidates
    ensures forall a, b, m, s, v :: IsPending(after, a, m, s, v) && IsPending(after, b, m, s, v) ==> a == b
  {
    forall a, b, m, s, v | IsPending(after, a, m, s, v) && IsPending(after, b, m, s, v) ensures a == b {
      assert IsPending(r, a, m, s, v) && IsPending(r, b, m, s, v);
    }
  }

  lemma LinkAdded(r: Registry, k: Key, l: Link)
    requires RegistryOk(r) && LinkOk(l, r.masters) && k !in r.links
    ensures RegistryOk(WithLink(r, k, l)) && RegistryStep(r, WithLink(r, k, l))
  {
    hide LinkOk;
    SamePending(r, WithLink(r, k, l));
  }

  lemma MasterAdded(r: Registry, name: string, k: Key, reason: Reason)
    requires RegistryOk(r) && k !in r.links && !reason.Compared?
    ensures RegistryOk(WithNewMaster(r, name, k, reason)) && RegistryStep(r, WithNewMaster(r, name, k, reason))
  {
    SamePending(r, WithNewMaster(r, name, k, reason));
    forall x | x in r.links ensures LinkOk(r.links[x], r.masters[r.nextId := name]) {
      assert LinkOk(r.links[x], r.masters);
    }
  }

  lemma CandidateAdded(r: Registry, c: Candidate)
    requires RegistryOk(r) && c.master in r.masters
    requires forall id :: !IsPending(r, id, c.master, c.key.system, c.key.value)
    ensures RegistryOk(WithCandidate(r, c)) && RegistryStep(r, WithCandidate(r, c))
  {
    hide LinkOk;
    var after := WithCandidate(r, c);
    forall a, b, m, s, v | IsPending(after, a, m, s, v) && IsPending(after, b, m, s, v) ensures a == b {
      assert a != r.nextId ==> IsPending(r, a, m, s, v);
      assert b != r.nextId ==> IsPending(r, b, m, s, v);
    }
  }

  lemma Decided(r: Registry, id: CandidateId, d: Decision)
    requires RegistryOk(r) && id in r.candidates && r.candidates[id].status.Pending? && !d.Pending?
    ensures RegistryOk(WithDecision(r, id, d)) && RegistryStep(r, WithDecision(r, id, d))
  {
    hide LinkOk;
    var after := WithDecision(r, id, d);
    forall a, b, m, s, v | IsPending(after, a, m, s, v) && IsPending(after, b, m, s, v) ensures a == b {
      assert IsPending(r, a, m, s, v) && IsPending(r, b, m, s, v);
    }
  }

  /** What resolving a person makes of the tables and of the best match. */
  ghost predicate Resolved(before: Registry, after: Registry, k: Key, name: string, best: Option<Match>,
                           res: Resolution) {
    if k in before.links then
      after == before && res == Known(before.links[k].master, before.links[k].confidence)
    else if best.Some? && best.value.score >= CONFIRM_THRESHOLD then
      && after == WithLink(before, k, Link(best.value.master, best.value.score, Compared(best.value.evidence)))
      && res == AutoLinked(best.value.master, best.value.score)
    else if best.Some? && best.value.score >= CANDIDATE_THRESHOLD then
      && res.Ambiguous? && res.master == best.value.master && res.score == best.value.score
      && after.links == before.links && after.masters == before.masters
      && IsPending(after, res.candidate, res.master, k.system, k.value)
      && after == Queued(before, Candidate(res.master, k, res.score, Pending))
    else
      after == WithNewMaster(before, name, k, FirstSeen) && res == NewPerson(before.nextId)
  }

  datatype DecisionError = NoSuchCandidate | AlreadyDecided | AlreadyLinked

  lemma StepToItself(r: Registry)
    ensures RegistryStep(r, r)
  {}

  lemma NothingCompared(r: Registry, m: Matcher, p: Person)
    ensures BestOf(r, m, p, {}, None)
  {}

  lemma StandsStill(r: Registry, compared: set<Key>, k: Key)
    requires k in r.links
    ensures Stands(r, compared + {k}, r.links[k].master)
    ensures forall master :: Stands(r, compared, master) ==> Stands(r, compared + {k}, master)
  {
    assert k in compared + {k};
    forall master | Stands(r, compared, master) ensures Stands(r, compared + {k}, master) {
      var x :| x in compared && x in r.links && r.links[x].master == master;
      assert x in compared + {k};
    }
  }

  lemma MatchIsSound(r: Registry, m: Matcher, p: Person, compared: set<Key>, best: Option<Match>)
    requires forall k :: k in compared ==> k in r.links && r.links[k].master in r.masters
    requires BestOf(r, m, p, compared, best) && best.Some?
    ensures best.value.master in r.masters
    ensures best.value.score == Round3(ScoreOf(best.value.evidence))
    ensures best.value.score >= CONFIRM_THRESHOLD ==>
      LinkOk(Link(best.value.master, best.value.score, Compared(best.value.evidence)), r.masters)
  {
    hide ScoreOf, Round3;
  }

  lemma CandidateHasMaster(r: Registry, id: CandidateId)
    requires RegistryOk(r) && id in r.candidates
    ensures r.candidates[id].master in r.masters && id < r.nextId && r.nextId !in r.masters
    ensures LinkOk(Link(r.candidates[id].master, 1.0, OfficerMatch), r.masters)
  {}

  // ---- The operations ----

  /** What an operation did, with what it was given and what it compared. */
  datatype Operation =
    | PersonResolved(m: Matcher, p: Person, k: Key, compared: set<Key>, best: Option<Match>, res: Resolution)
    | CandidateDecided(id: CandidateId, approve: bool)
    | IdentifiersForgotten(values: set<string>)
    | NothingDone

  /** An officer's decision: the identifier goes to the proposed person or to one of its own. */
  function AfterDecision(r: Registry, id: CandidateId, approve: bool): Registry
    requires id in r.candidates
  {
    var c := r.candidates[id];
    if approve then WithDecision(WithLink(r, c.key, Link(c.master, 1.0, OfficerMatch)), id, Confirmed)
    else WithDecision(WithNewMaster(r, c.key.value, c.key, OfficerDistinct), id, Rejected)
  }

  function Forgotten(r: Registry, values: set<string>): Registry {
    r.(links := map k | k in r.links && k.value !in values :: r.links[k],
       candidates := map id | id in r.candidates && r.candidates[id].key.value !in values :: r.candidates[id])
  }

  ghost predicate MayDecide(r: Registry, id: CandidateId) {
    id in r.candidates && r.candidates[id].status.Pending? && r.candidates[id].key !in r.links
  }

  ghost predicate Step(a: Registry, b: Registry, op: Operation) {
    match op
    case PersonResolved(m, p, k, compared, best, res) =>
      (k !in a.links ==> IsBest(a, m, p, k.system, compared, best)) && Resolved(a, b, k, p.name, best, res)
    case CandidateDecided(id, approve) => MayDecide(a, id) && b == AfterDecision(a, id, approve)
    case IdentifiersForgotten(values) => b == Forgotten(a, values)
    case NothingDone => b == a
  }

  lemma DecisionIsAStep(r: Registry, id: CandidateId, approve: bool)
    requires RegistryOk(r) && MayDecide(r, id)
    ensures RegistryOk(AfterDecision(r, id, approve)) && RegistryStep(r, AfterDecision(r, id, approve))
  {
    hide RegistryOk, RegistryStep, LinkOk;
    var c := r.candidates[id];
    CandidateHasMaster(r, id);
    var middle := if approve then WithLink(r, c.key, Link(c.master, 1.0, OfficerMatch))
                  else WithNewMaster(r, c.key.value, c.key, OfficerDistinct);
    if approve {
      LinkAdded(r, c.key, Link(c.master, 1.0, OfficerMatch));
    } else {
      MasterAdded(r, c.key.value, c.key, OfficerDistinct);
    }
    Decided(middle, id, if approve then Confirmed else Rejected);
    RegistryStepTransitive(r, middle, AfterDecision(r, id, approve));
  }

  lemma ForgottenOk(r: Registry, values: set<string>)
    requires RegistryOk(r)
    ensures RegistryOk(Forgotten(r, values))
  {
    hide LinkOk;
    var after := Forgotten(r, values);
    forall a, b, m, s, v | IsPending(after, a, m, s, v) && IsPending(after, b, m, s, v) ensures a == b {
      assert IsPending(r, a, m, s, v) && IsPending(r, b, m, s, v);
    }
  }

  lemma ResolvingIsAStep(a: Registry, b: Registry, m: Matcher, p: Person, k: Key, compared: set<Key>,
                         best: Option<Match>, res: Resolution)
    requires RegistryOk(a) && Step(a, b, PersonResolved(m, p, k, compared, best, res))
    ensures RegistryOk(b) && RegistryStep(a, b)
  {
    hide RegistryOk, RegistryStep, BestOf, LinkOk, ScoreOf, Round3, IsPending, Stands, OnePerMaster;
    StepToItself(a);
    if k !in a.links {
      if best.Some? {
        MatchIsSound(a, m, p, compared, best);
      }
      if best.Some? && best.value.score >= CONFIRM_THRESHOLD {
        LinkAdded(a, k, Link(best.value.master, best.value.score, Compared(best.value.evidence)));
      } else if best.Some? && best.value.score >= CANDIDATE_THRESHOLD {
        var c := Candidate(best.value.master, k, best.value.score, Pending);
        if !exists id :: IsPending(a, id, c.master, c.key.system, c.key.value) { CandidateAdded(a, c); }
      } else {
        MasterAdded(a, p.name, k, FirstSeen);
      }
    }
  }

  /** Every operation keeps the tables in order, and all but the demo reset keep every row. */
  lemma StepKeeps(a: Registry, b: Registry, op: Operation)
    requires RegistryOk(a) && Step(a, b, op)
    ensures RegistryOk(b)
    ensures !op.IdentifiersForgotten? ==> RegistryStep(a, b)
  {
    hide RegistryOk, RegistryStep, Resolved, IsBest;
    match op
    case PersonResolved(m, p, k, compared, best, res) => ResolvingIsAStep(a, b, m, p, k, compared, best, res);
    case CandidateDecided(id, approve) => DecisionIsAStep(a, id, approve);
    case IdentifiersForgotten(values) => ForgottenOk(a, values);
    case NothingDone => StepToItself(a);
  }

  class IdentityStore {
    var masters: map<MasterId, string>
    var links: map<Key, Link>
    var candidates: map<CandidateId, Candidate>
    var nextId: nat

    ghost function Rows(): Registry
      reads this
    {
      Registry(masters, links, candidates, nextId)
    }

    ghost predicate Valid()
      reads this
    {
      RegistryOk(Rows())
    }

    constructor ()
      ensures Valid() && Rows() == Registry(map[], map[], map[], 0)
    {
      masters, links, candidates, nextId := map[], map[], map[], 0;
    }

    lemma LinksHaveMasters()
      requires Valid()
      ensures forall k :: k in links ==> links[k].master in masters
    {
      forall k | k in links ensures links[k].master in masters { assert LinkOk(Rows().links[k], Rows().masters); }
    }

    method FindCrossSystemMatch(m: Matcher, p: Person, exclude: string) returns (best: Option<Match>,
                                ghost compared: set<Key>)
      requires Valid()
      ensures IsBest(Rows(), m, p, exclude, compared, best)
      ensures exists c: set<Key> :: IsBest(Rows(), m, p, exclude, c, best)
    {
      hide ScoreOf, RegistryOk, BestOf;
      LinksHaveMasters();
      var rest := set k | k in links && k.system != exclude;
      ghost var all := rest;
      var seenMasters: set<MasterId> := {};
      best, compared := None, {};
      assert BestOf(Rows(), m, p, compared, best) by { NothingCompared(Rows(), m, p); }
      while rest != {}
        invariant rest <= all && compared <= all
        invariant OnePerMaster(Rows(), compared)
        invariant seenMasters == set k | k in compared :: links[k].master
        invariant forall k :: k in all - rest ==> Stands(Rows(), compared, links[k].master)
        invariant BestOf(Rows(), m, p, compared, best)
        decreases rest
      {
        var k :| k in rest;
        rest := rest - {k};
        var master := links[k].master;
        if master in seenMasters {
          assert Stands(Rows(), compared, master);
          continue;
        }
        seenMasters := seenMasters + {master};
        BestOfOneMore(Rows(), m, p, compared, best, k);
        StandsStill(Rows(), compared, k);
        compared := compared + {k};
        if master in masters {
          var e := EvidenceFor(m, p, masters[master], k);
          if best.None? || ScoreOf(e) > best.value.score {
            best := Some(Match(master, Round3(ScoreOf(e)), e));
          }
        }
      }
    }

    /** An open question about the same record is not asked a second time. */
    method QueueCandidate(c: Candidate) returns (id: CandidateId)
      requires Valid() && c.master in masters && c.status.Pending?
      modifies this
      ensures Valid() && RegistryStep(old(Rows()), Rows())
      ensures IsPending(Rows(), id, c.master, c.key.system, c.key.value)
      ensures Rows() == Queued(old(Rows()), c)
    {
      var open := set x | x in candidates && candidates[x].status.Pending? && candidates[x].master == c.master
                          && candidates[x].key.system == c.key.system && candidates[x].key.value == c.key.value;
      if open != {} {
        id :| id in open;
        assert IsPending(Rows(), id, c.master, c.key.system, c.key.value);
        return;
      }
      forall x ensures !IsPending(Rows(), x, c.master, c.key.system, c.key.value) {
        assert x !in open;
      }
      CandidateAdded(Rows(), c);
      id := nextId;
      candidates, nextId := candidates[id := c], nextId + 1;
    }

    /** The links come from the best match alone, and what is too weak to link is asked or is somebody new. */
    method ResolvePerson(m: Matcher, p: Person, k: Key) returns (res: Resolution, ghost best: Option<Match>,
                         ghost compared: set<Key>)
      requires Valid()
      modifies this
      ensures Valid() && RegistryStep(old(Rows()), Rows())
      ensures Step(old(Rows()), Rows(), PersonResolved(m, p, k, compared, best, res))
    {
      hide RegistryOk, RegistryStep, BestOf, LinkOk, ScoreOf, Round3, IsPending;
      StepToItself(Rows());
      best, compared := None, {};
      if k in links {
        return Known(links[k].master, links[k].confidence), best, compared;
      }
      var found;
      found, compared := FindCrossSystemMatch(m, p, k.system);
      best := found;
      if found.Some? {
        var master, score, evidence := found.value.master, found.value.score, found.value.evidence;
        MatchIsSound(Rows(), m, p, compared, found);
        if score >= CONFIRM_THRESHOLD {
          LinkAdded(Rows(), k, Link(master, score, Compared(evidence)));
          links := links[k := Link(master, score, Compared(evidence))];
          return AutoLinked(master, score), best, compared;
        }
        if score >= CANDIDATE_THRESHOLD {
          var id := QueueCandidate(Candidate(master, k, score, Pending));
          return Ambiguous(master, score, id), best, compared;
        }
      }
      MasterAdded(Rows(), p.name, k, FirstSeen);
      masters, links, nextId := masters[nextId := p.name], links[k := Link(nextId, 1.0, FirstSeen)], nextId + 1;
      res := NewPerson(nextId - 1);
    }

    /**
     An officer's decision. It is refused when the candidate is unknown or decided, and when the identifier has
     been linked in the meantime, which the unique constraint on the links forbids to do twice.
     */
    method Decide(id: CandidateId, approve: bool) returns (error: Option<DecisionError>)
      requires Valid()
      modifies this
      ensures Valid() && RegistryStep(old(Rows()), Rows())
      ensures error == Some(NoSuchCandidate) <==> id !in old(candidates)
      ensures error == Some(AlreadyDecided) <==> id in old(candidates) && !old(candidates)[id].status.Pending?
      ensures error == Some(AlreadyLinked) <==>
        id in old(candidates) && old(candidates)[id].status.Pending? && old(candidates)[id].key in old(links)
      ensures error.None? <==> id in old(candidates) && old(candidates)[id].status.Pending?
                               && old(candidates)[id].key !in old(links)
      ensures Step(old(Rows()), Rows(), if error.None? then CandidateDecided(id, approve) else NothingDone)
    {
      hide RegistryOk, RegistryStep, LinkOk;
      StepToItself(Rows());
      if id !in candidates {
        return Some(NoSuchCandidate);
      }
      if !candidates[id].status.Pending? {
        return Some(AlreadyDecided);
      }
      if candidates[id].key in links {
        return Some(AlreadyLinked);
      }
      var c := candidates[id];
      DecisionIsAStep(Rows(), id, approve);
      if approve {
        links := links[c.key := Link(c.master, 1.0, OfficerMatch)];
      } else {
        masters, links, nextId := masters[nextId := c.key.value], links[c.key := Link(nextId, 1.0, OfficerDistinct)],
          nextId + 1;
      }
      candidates := candidates[id := c.(status := if approve then Confirmed else Rejected)];
      error := None;
    }

    /** The demo reset: the links and questions of some identifiers are deleted. */
    method Forget(values: set<string>)
      requires Valid()
      modifies this
      ensures Valid() && Step(old(Rows()), Rows(), IdentifiersForgotten(values))
    {
      hide RegistryOk;
      ForgottenOk(Rows(), values);
      candidates := map id | id in candidates && candidates[id].key.value !in values :: candidates[id];
      links := map k | k in links && k.value !in values :: links[k];
    }
  }

  /**
   A record whose mobile equals that of a compared record never silently becomes a new person: it is linked,
   or an officer is asked.
   */
  lemma SameMobileIsNeverSilentlyNew(before: Registry, after: Registry, m: Matcher, p: Person, k: Key,
                                     compared: set<Key>,
                                     best: Option<Match>, res: Resolution, x: Key)
    requires m.Valid() && k !in before.links && IsBest(before, m, p, k.system, compared, best)
    requires Resolved(before, after, k, p.name, best, res)
    requires x in compared && EvidenceIn(before, m, p, x).mobile.SameMobile?
    ensures !res.NewPerson? && (res.AutoLinked? || res.Ambiguous?)
  {
    SameMobileIsNoticed(before, m, p, compared, best, x);
  }

  // ---- Runs ----

  ghost predicate StepAt(run: seq<Registry>, ops: seq<Operation>, i: nat)
    requires i < |ops| && |run| == |ops| + 1
  {
    Step(run[i], run[i + 1], ops[i])
  }

  /** Operations one after the other, from tables that are in order. */
  ghost predicate IsRun(run: seq<Registry>, ops: seq<Operation>) {
    |run| == |ops| + 1 && RegistryOk(run[0]) && forall i :: 0 <= i < |ops| ==> StepAt(run, ops, i)
  }

  ghost predicate Forgets(op: Operation, value: string) {
    op.IdentifiersForgotten? && value in op.values
  }

  lemma {:induction false} RunKeepsOk(run: seq<Registry>, ops: seq<Operation>, i: nat)
    requires IsRun(run, ops) && i < |run|
    ensures RegistryOk(run[i])
  {
    hide RegistryOk, Step;
    if i > 0 {
      RunKeepsOk(run, ops, i - 1);
      assert StepAt(run, ops, i - 1);
      StepKeeps(run[i - 1], run[i], ops[i - 1]);
    }
  }

  /** One operation leaves a link, and a decided question, unless it is a reset that names the identifier. */
  lemma RowStays(a: Registry, b: Registry, op: Operation, k: Key)
    requires RegistryOk(a) && Step(a, b, op)
    ensures k in a.links ==> (k in b.links && b.links[k] == a.links[k] <==> !Forgets(op, k.value))
    ensures forall id ::
      id in a.candidates && !a.candidates[id].status.Pending? && !Forgets(op, a.candidates[id].key.value) ==>
        id in b.candidates && b.candidates[id] == a.candidates[id]
  {
    hide RegistryOk, Resolved, IsBest;
    StepKeeps(a, b, op);
  }

  /**
   In every run an identifier keeps the one person it is linked to throughout, exactly if no reset names it.
   */
  lemma {:induction false} LinksNeverChange(run: seq<Registry>, ops: seq<Operation>, i: nat, j: nat, k: Key)
    requires IsRun(run, ops) && i <= j < |run| && k in run[i].links
    ensures (forall n :: i <= n <= j ==> k in run[n].links && run[n].links[k] == run[i].links[k])
       <==> forall n :: i <= n < j ==> !Forgets(ops[n], k.value)
  {
    hide RegistryOk, Step;
    if i < j {
      LinksNeverChange(run, ops, i, j - 1, k);
      RunKeepsOk(run, ops, j - 1);
      assert StepAt(run, ops, j - 1);
      RowStays(run[j - 1], run[j], ops[j - 1], k);
    }
  }

  /** A decided question stays decided as it was, as long as no reset names its identifier. */
  lemma {:induction false} DecisionsStay(run: seq<Registry>, ops: seq<Operation>, i: nat, j: nat, id: CandidateId)
    requires IsRun(run, ops) && i <= j < |run| && id in run[i].candidates && !run[i].candidates[id].status.Pending?
    requires forall n :: i <= n < j ==> !Forgets(ops[n], run[i].candidates[id].key.value)
    ensures id in run[j].candidates && run[j].candidates[id] == run[i].candidates[id]
  {
    hide RegistryOk, Step;
    if i < j {
      DecisionsStay(run, ops, i, j - 1, id);
      RunKeepsOk(run, ops, j - 1);
      assert StepAt(run, ops, j - 1);
      RowStays(run[j - 1], run[j], ops[j - 1], run[i].candidates[id].key);
    }
  }

  /** In every run a link made by comparison alone is at 0.90 or more, and its mobiles did not differ. */
  lemma NeverLinkedAcrossConflict(run: seq<Registry>, ops: seq<Operation>, i: nat, k: Key)
    requires IsRun(run, ops) && i < |run| && k in run[i].links && run[i].links[k].reason.Compared?
    ensures run[i].links[k].confidence >= 0.90 && !run[i].links[k].reason.evidence.mobile.OtherMobile?
  {
    hide RegistryOk, Step;
    RunKeepsOk(run, ops, i);
    NoLinkAcrossConflict(run[i], k);
  }
}
