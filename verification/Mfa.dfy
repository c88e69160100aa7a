/** Time-based one-time codes that cannot be replayed (app/services/mfa_service.py; RFC 6238, section 5.2). */
module Mfa {
  import opened Wrappers

  datatype Record = Record(secret: string, enabled: bool, lastUsedStep: int, backupHashes: seq<string>)

  datatype Error = NotFound | Conflict | ValidationFailed | AuthenticationFailed

  /** The code of a secret at a time step, the two formats, the hash of a backup code, and the cleaning of a code. */
  datatype Engine = Engine(
    codeAt: (string, int) -> string, isCode: string -> bool, isBackup: string -> bool, hash: string -> string,
      clean: string -> string)

  /** An accepted code: under which enrolment and for which time step. */
  datatype Accepted = Accepted(enrolment: nat, step: int)

  /** The first step of the window whose code is the one given. */
  ghost predicate IsMatch(e: Engine, secret: string, code: string, now: int, window: nat, step: Option<int>) {
    match step
    case None => forall s :: now - window <= s <= now + window ==> e.codeAt(secret, s) != code
    case Some(t) =>
      && now - window <= t <= now + window && e.codeAt(secret, t) == code
      && forall s :: now - window <= s < t ==> e.codeAt(secret, s) != code
  }

  method Match(e: Engine, secret: string, code: string, now: int, window: nat) returns (step: Option<int>)
    ensures IsMatch(e, secret, code, now, window, step)
  {
    var offset: int := 0 - window;
    while offset <= window
      invariant 0 - window <= offset <= window + 1
      invariant forall s :: now - window <= s < now + offset ==> e.codeAt(secret, s) != code
    {
      if e.codeAt(secret, now + offset) == code {
        return Some(now + offset);
      }
      offset := offset + 1;
    }
    step := None;
  }

  /** The first step that matches is one. */
  lemma FirstMatchIsOne(e: Engine, secret: string, code: string, now: int, window: nat, s: Option<int>, t: Option<int>)
    requires IsMatch(e, secret, code, now, window, s) && IsMatch(e, secret, code, now, window, t)
    ensures s == t
  {}

  /** A time code whose first match is later than all steps used before, or else a backup code that is still listed. */
  ghost predicate Passes(e: Engine, record: Option<Record>, code: string, now: int, window: nat) {
    && record.Some? && record.value.enabled
    && if e.isCode(e.clean(code))
       then exists t :: IsMatch(e, record.value.secret, e.clean(code), now, window, Some(t))
                        && t > record.value.lastUsedStep
       else e.isBackup(e.clean(code)) && e.hash(e.clean(code)) in record.value.backupHashes
  }

  function Hashes(e: Engine, codes: seq<string>): seq<string> {
    seq(|codes|, i requires 0 <= i < |codes| => e.hash(codes[i]))
  }

  function RemoveFirst(s: seq<string>, x: string): seq<string> {
    if s == [] then [] else if s[0] == x then s[1..] else [s[0]] + RemoveFirst(s[1..], x)
  }

  /** A backup code that is used is struck off once. */
  lemma {:induction false} RemovesOne(s: seq<string>, x: string)
    ensures x in s ==> multiset(RemoveFirst(s, x)) == multiset(s) - multiset{x}
    ensures x !in s ==> RemoveFirst(s, x) == s
  {
    if s != [] {
      RemovesOne(s[1..], x);
      assert s == [s[0]] + s[1..];
    }
  }

  predicate Earlier(a: Accepted, b: Accepted) {
    a.enrolment < b.enrolment || (a.enrolment == b.enrolment && a.step < b.step)
  }

  /** Codes accepted under one enrolment have growing steps, none beyond the record's last. */
  ghost predicate InOrder(accepted: seq<Accepted>, enrolment: nat, record: Option<Record>) {
    && (forall i :: 0 <= i < |accepted| ==> accepted[i].enrolment <= enrolment)
    && (forall i, j :: 0 <= i < j < |accepted| ==> Earlier(accepted[i], accepted[j]))
    && (record.Some? ==> forall i :: 0 <= i < |accepted| && accepted[i].enrolment == enrolment ==>
          record.value.enabled && accepted[i].step <= record.value.lastUsedStep)
  }

  /** No code of a time step is accepted twice under one enrolment. */
  lemma NoReplay(accepted: seq<Accepted>, enrolment: nat, record: Option<Record>, i: nat, j: nat)
    requires InOrder(accepted, enrolment, record) && i < |accepted| && j < |accepted|
    ensures i != j ==> accepted[i] != accepted[j]
  {
    if i < j {
      assert Earlier(accepted[i], accepted[j]);
    } else if j < i {
      assert Earlier(accepted[j], accepted[i]);
    }
  }

  class MfaAccount {
    const engine: Engine
    const window: nat
    var record: Option<Record>
    ghost var accepted: seq<Accepted>
    ghost var enrolment: nat

    ghost predicate Valid()
      reads this
    {
      InOrder(accepted, enrolment, record)
    }

    constructor (engine: Engine, window: nat)
      ensures Valid() && record == None && accepted == [] && this.engine == engine && this.window == window
    {
      this.engine, this.window, record, accepted, enrolment := engine, window, None, [], 0;
    }

    method BeginEnrolment(secret: string) returns (error: Option<Error>)
      requires Valid()
      modifies this
      ensures Valid() && accepted == old(accepted)
      ensures error.Some? <==> old(record).Some? && old(record).value.enabled
      ensures error.Some? ==> record == old(record) && enrolment == old(enrolment)
      ensures error.None? ==> record == Some(Record(secret, false, -1, [])) && enrolment == old(enrolment) + 1
    {
      if record.Some? && record.value.enabled {
        return Some(Conflict);
      }
      record, enrolment, error := Some(Record(secret, false, -1, [])), enrolment + 1, None;
    }

    lemma FirstMatchDiffers(secret: string, code: string, now: int, step: Option<int>)
      requires IsMatch(engine, secret, code, now, window, step)
      ensures step.Some? ==> !IsMatch(engine, secret, code, now, window, None)
    {}

    /** The first code proves the enrolment, and counts as used. */
    method ConfirmEnrolment(code: string, now: int, backup: seq<string>) returns (error: Option<Error>)
      requires Valid()
      modifies this
      ensures Valid() && enrolment == old(enrolment)
      ensures error.Some? ==> record == old(record) && accepted == old(accepted)
      ensures error == Some(NotFound) <==> old(record).None?
      ensures error == Some(Conflict) <==> old(record).Some? && old(record).value.enabled
      ensures error == Some(ValidationFailed)
         <==> old(record).Some? && !old(record).value.enabled && !engine.isCode(engine.clean(code))
      ensures error == Some(AuthenticationFailed)
         <==> old(record).Some? && !old(record).value.enabled && engine.isCode(engine.clean(code))
              && IsMatch(engine, old(record).value.secret, engine.clean(code), now, window, None)
      ensures error.None? ==>
        && old(record).Some? && !old(record).value.enabled
        && record.Some? && record.value.backupHashes == Hashes(engine, backup)
        && record.value.enabled && record.value.secret == old(record).value.secret
        && accepted == old(accepted) + [Accepted(enrolment, record.value.lastUsedStep)]
        && IsMatch(engine, record.value.secret, engine.clean(code), now, window, Some(record.value.lastUsedStep))
    {
      if record.None? {
        return Some(NotFound);
      }
      if record.value.enabled {
        return Some(Conflict);
      }
      var cleaned := engine.clean(code);
      if !engine.isCode(cleaned) {
        return Some(ValidationFailed);
      }
      var step := Match(engine, record.value.secret, cleaned, now, window);
      if step.None? {
        return Some(AuthenticationFailed);
      }
      FirstMatchDiffers(record.value.secret, cleaned, now, step);
      record := Some(Record(record.value.secret, true, step.value, Hashes(engine, backup)));
      accepted := accepted + [Accepted(enrolment, step.value)];
      error := None;
    }

    /**
     A time code passes exactly when the first step it fits in the window is later than every step used before; a
     backup code passes exactly when it is still listed, and is struck off.
     */
    method VerifyLogin(code: string, now: int) returns (ok: bool)
      requires Valid()
      modifies this
      ensures Valid() && enrolment == old(enrolment) && record.Some? == old(record).Some?
      ensures ok <==> Passes(engine, old(record), code, now, window)
      ensures !ok ==> record == old(record) && accepted == old(accepted)
      ensures ok ==> record.value.secret == old(record).value.secret && record.value.enabled
      ensures ok && engine.isCode(engine.clean(code)) ==>
        && IsMatch(engine, record.value.secret, engine.clean(code), now, window, Some(record.value.lastUsedStep))
        && record.value.lastUsedStep > old(record).value.lastUsedStep
        && accepted == old(accepted) + [Accepted(enrolment, record.value.lastUsedStep)]
      ensures ok && !engine.isCode(engine.clean(code)) ==>
        && engine.isBackup(engine.clean(code)) && engine.hash(engine.clean(code)) in old(record).value.backupHashes
        && multiset(record.value.backupHashes)
           == multiset(old(record).value.backupHashes) - multiset{engine.hash(engine.clean(code))}
        && record.value.lastUsedStep == old(record).value.lastUsedStep && accepted == old(accepted)
    {
      if record.None? || !record.value.enabled {
        return false;
      }
      var cleaned, r := engine.clean(code), record.value;
      ok := false;
      if engine.isCode(cleaned) {
        var step := Match(engine, r.secret, cleaned, now, window);
        forall t | IsMatch(engine, r.secret, cleaned, now, window, Some(t)) ensures step == Some(t) {
          FirstMatchIsOne(engine, r.secret, cleaned, now, window, step, Some(t));
        }
        if step.Some? && step.value > r.lastUsedStep {
          record := Some(r.(lastUsedStep := step.value));
          accepted := accepted + [Accepted(enrolment, step.value)];
          ok := true;
        }
      } else if engine.isBackup(cleaned) {
        var digest := engine.hash(cleaned);
        if digest in r.backupHashes {
          RemovesOne(r.backupHashes, digest);
          record := Some(r.(backupHashes := RemoveFirst(r.backupHashes, digest)));
          ok := true;
        }
      }
    }

    /** Turning it off takes a fresh password check and a code that passes. */
    method Disable(code: string, reauthenticated: bool, now: int) returns (error: Option<Error>)
      requires Valid()
      modifies this
      ensures Valid()
      ensures error.None? <==> reauthenticated && Passes(engine, old(record), code, now, window)
      ensures error.None? ==> record == None
      ensures error.Some? ==> record == old(record) && accepted == old(accepted)
    {
      if !reauthenticated {
        return Some(AuthenticationFailed);
      }
      var ok := VerifyLogin(code, now);
      if !ok {
        return Some(AuthenticationFailed);
      }
      record, error := None, None;
    }
  }
}
