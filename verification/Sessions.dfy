/**
 Which session is accepted, over whole runs of the operations (app/services/auth_service.py, app/core/security.py): in
 terms of when it was opened, when it was last used and what happened to its account since.
 */
module Sessions {
  import opened Wrappers
  import opened Accounts

  const MINUTE: Time := 60
  const DAY: Time := 24 * 60 * MINUTE

  /** Opening the session and every request accepted under it. */
  predicate Uses(op: Operation, token: Token) {
    (op.LoggedIn? || op.Authenticated?) && op.token == token
  }

  /** A change of role or password of the account, its deactivation, or the logout. */
  predicate Disturbs(t: Tables, op: Operation, id: UserId, token: Token) {
    || (op.RoleChanged? && op.id == id)
    || (op.ActiveSet? && op.id == id && !op.active)
    || (op.PasswordChanged? && op.id == id)
    || (op.PasswordReset? && op.token in t.resets && t.resets[op.token].user == id)
    || (op.LoggedOut? && op.token == token)
  }

  /** That is what ends the sessions of an account, and the logout. */
  lemma DisturbsIs(policy: Policy, t: Tables, op: Operation, id: UserId, token: Token)
    requires Allowed(policy, t, op)
    ensures Disturbs(t, op, id, token)
       <==> EndsSessionsOf(t, op) == Some(id) || (op.LoggedOut? && op.token == token)
  {
    hide EmailTaken, IsActive;
  }

  ghost predicate Undisturbed(run: seq<Tables>, ops: seq<Operation>, i: nat, k: nat, id: UserId, token: Token)
    requires i <= k <= |ops| <= |run|
  {
    forall m :: i <= m < k ==> !Disturbs(run[m], ops[m], id, token)
  }

  /** The session was used at `u`, and not since. */
  ghost predicate IsLastUse(ops: seq<Operation>, u: nat, k: nat, token: Token) {
    u < k <= |ops| && Uses(ops[u], token) && forall m :: u < m < k ==> !Uses(ops[m], token)
  }

  lemma SessionOneStep(policy: Policy, a: Tables, b: Tables, op: Operation, t: Token)
    requires Step(policy, a, b, op) && t in a.sessions
    ensures t in b.sessions
    ensures b.sessions[t].user == a.sessions[t].user && b.sessions[t].mobile == a.sessions[t].mobile
    ensures b.sessions[t].createdAt == a.sessions[t].createdAt
    ensures b.sessions[t].lastSeenAt == if op.Authenticated? && op.token == t then op.now else a.sessions[t].lastSeenAt
    ensures b.sessions[t].revokedAt.None?
       <==> a.sessions[t].revokedAt.None? && !Disturbs(a, op, a.sessions[t].user, t)
  {
    hide EmailTaken, IsActive, HasSuperAdmin, MayChangeRole, MaySetActive, CanAssign;
  }

  lemma AccountOneStep(policy: Policy, a: Tables, b: Tables, op: Operation, id: UserId, t: Token)
    requires Step(policy, a, b, op) && id in a.users && a.users[id].active && !Disturbs(a, op, id, t)
    ensures id in b.users && b.users[id].active
  {
    hide RevokeAll, EmailTaken, IsActive, HasSuperAdmin, CanAssign;
  }

  lemma Opened(policy: Policy, a: Tables, b: Tables, op: Operation)
    requires Step(policy, a, b, op) && op.LoggedIn?
    ensures op.id in b.users && b.users[op.id].active && op.token in b.sessions
    ensures b.sessions[op.token] == Session(op.id, op.now, op.now, None, op.mobile)
  {}

  /** What a session says of its opening never changes; it is revoked once it is disturbed, and only then. */
  lemma {:induction false} SessionSince(policy: Policy, run: seq<Tables>, ops: seq<Operation>, j: nat, k: nat)
    requires IsRun(policy, run, ops) && j < k < |run| && ops[j].LoggedIn?
    ensures ops[j].token in run[k].sessions
    ensures var s := run[k].sessions[ops[j].token];
            && s.user == ops[j].id && s.createdAt == ops[j].now && s.mobile == ops[j].mobile
            && (s.revokedAt.None? <==> Undisturbed(run, ops, j + 1, k, ops[j].id, ops[j].token))
    ensures Undisturbed(run, ops, j + 1, k, ops[j].id, ops[j].token) ==>
      ops[j].id in run[k].users && run[k].users[ops[j].id].active
  {
    hide Step, Disturbs;
    if k == j + 1 {
      assert StepAt(policy, run, ops, j);
      Opened(policy, run[j], run[k], ops[j]);
    } else {
      SessionSince(policy, run, ops, j, k - 1);
      assert StepAt(policy, run, ops, k - 1);
      SessionOneStep(policy, run[k - 1], run[k], ops[k - 1], ops[j].token);
      if Undisturbed(run, ops, j + 1, k, ops[j].id, ops[j].token) {
        AccountOneStep(policy, run[k - 1], run[k], ops[k - 1], ops[j].id, ops[j].token);
      }
    }
  }

  lemma UsedNow(policy: Policy, a: Tables, b: Tables, op: Operation, t: Token)
    requires Step(policy, a, b, op) && Uses(op, t)
    ensures t in b.sessions && b.sessions[t].lastSeenAt == op.now
  {}

  /** A session was last seen when it was last used. */
  lemma {:induction false} LastSeenAtLastUse(policy: Policy, run: seq<Tables>, ops: seq<Operation>, u: nat, k: nat,
                                             t: Token)
    requires IsRun(policy, run, ops) && k < |run| && IsLastUse(ops, u, k, t)
    ensures t in run[k].sessions && run[k].sessions[t].lastSeenAt == ops[u].now
  {
    hide Step;
    assert StepAt(policy, run, ops, k - 1);
    if u == k - 1 {
      UsedNow(policy, run[u], run[k], ops[u], t);
    } else {
      LastSeenAtLastUse(policy, run, ops, u, k - 1, t);
      assert !Uses(ops[k - 1], t);
      SessionOneStep(policy, run[k - 1], run[k], ops[k - 1], t);
    }
  }

  /**
   A session is accepted exactly when nothing has disturbed it, it was opened no longer ago than a session may last,
   and it was last used no longer ago than it may be idle: 60 and 14 days on a phone, else as the policy says.
   */
  lemma AcceptedExactlyWhen(policy: Policy, run: seq<Tables>, ops: seq<Operation>, j: nat, u: nat, k: nat, now: Time)
    requires IsRun(policy, run, ops) && j < k < |run| && ops[j].LoggedIn? && IsLastUse(ops, u, k, ops[j].token)
    ensures Allowed(policy, run[k], Authenticated(ops[j].token, now))
       <==> && Undisturbed(run, ops, j + 1, k, ops[j].id, ops[j].token)
            && now - ops[j].now <= (if ops[j].mobile then 60 * DAY else policy.absolute)
            && now - ops[u].now <= (if ops[j].mobile then 14 * DAY else policy.idle)
  {
    hide Step, Disturbs;
    SessionSince(policy, run, ops, j, k);
    LastSeenAtLastUse(policy, run, ops, u, k, ops[j].token);
  }

  /** Every request that was accepted came within both limits. */
  lemma AcceptedInTime(policy: Policy, run: seq<Tables>, ops: seq<Operation>, j: nat, u: nat, k: nat)
    requires IsRun(policy, run, ops) && j < k < |ops| && ops[j].LoggedIn? && IsLastUse(ops, u, k, ops[j].token)
    requires ops[k].Authenticated? && ops[k].token == ops[j].token
    ensures ops[k].now - ops[j].now <= if ops[j].mobile then 60 * DAY else policy.absolute
    ensures ops[k].now - ops[u].now <= if ops[j].mobile then 14 * DAY else policy.idle
    ensures Undisturbed(run, ops, j + 1, k, ops[j].id, ops[j].token)
  {
    assert StepAt(policy, run, ops, k);
    AcceptedExactlyWhen(policy, run, ops, j, u, k, ops[k].now);
  }

  lemma NewSession(policy: Policy, a: Tables, b: Tables, op: Operation, t: Token)
    requires Step(policy, a, b, op) && t in b.sessions && t !in a.sessions
    ensures op.LoggedIn? && op.token == t
  {
    hide EmailTaken, IsActive, HasSuperAdmin;
  }

  /** A request that was accepted was made under a session that had been opened. */
  lemma {:induction false} OpenedBefore(policy: Policy, run: seq<Tables>, ops: seq<Operation>, k: nat, t: Token)
    requires IsRun(policy, run, ops) && k < |run| && t in run[k].sessions && t !in run[0].sessions
    ensures exists j :: 0 <= j < k && ops[j].LoggedIn? && ops[j].token == t
  {
    hide Step;
    assert k > 0;
    assert StepAt(policy, run, ops, k - 1);
    if t in run[k - 1].sessions {
      OpenedBefore(policy, run, ops, k - 1, t);
    } else {
      NewSession(policy, run[k - 1], run[k], ops[k - 1], t);
    }
  }

  // ---- Resetting a password ----

  lemma ResetOneStep(policy: Policy, a: Tables, b: Tables, op: Operation, t: Token)
    requires Step(policy, a, b, op) && t in a.resets
    ensures t in b.resets && b.resets[t].expiresAt == a.resets[t].expiresAt && b.resets[t].user == a.resets[t].user
    ensures b.resets[t].usedAt.None? <==> a.resets[t].usedAt.None? && !(op.PasswordReset? && op.token == t)
    ensures a.resets[t].user in a.users ==> a.resets[t].user in b.users
  {
    hide EmailTaken, IsActive, RevokeAll, HasSuperAdmin, MayChangeRole, MaySetActive, CanAssign;
  }

  lemma Issued(policy: Policy, a: Tables, b: Tables, op: Operation)
    requires Step(policy, a, b, op) && op.ResetIssued?
    ensures op.token in b.resets && b.resets[op.token] == ResetToken(op.id, op.now + 60 * MINUTE, None)
    ensures op.id in b.users
  {}

  lemma {:induction false} ResetSince(policy: Policy, run: seq<Tables>, ops: seq<Operation>, j: nat, k: nat)
    requires IsRun(policy, run, ops) && j < k < |run| && ops[j].ResetIssued?
    ensures ops[j].token in run[k].resets && ops[j].id in run[k].users
    ensures var r := run[k].resets[ops[j].token];
            && r.user == ops[j].id && r.expiresAt == ops[j].now + 60 * MINUTE
            && (r.usedAt.None? <==> forall m :: j < m < k ==> !(ops[m].PasswordReset? && ops[m].token == ops[j].token))
  {
    assert StepAt(policy, run, ops, k - 1);
    hide Step;
    if k == j + 1 {
      Issued(policy, run[j], run[k], ops[j]);
    } else {
      ResetSince(policy, run, ops, j, k - 1);
      ResetOneStep(policy, run[k - 1], run[k], ops[k - 1], ops[j].token);
    }
  }

  /** A reset token works for one hour, the whole last second included, and once. */
  lemma ResetWorksExactlyWhen(policy: Policy, run: seq<Tables>, ops: seq<Operation>, j: nat, k: nat, hash: string,
                              now: Time)
    requires IsRun(policy, run, ops) && j < k < |run| && ops[j].ResetIssued?
    ensures Allowed(policy, run[k], PasswordReset(ops[j].token, hash, now))
       <==> && now <= ops[j].now + 60 * MINUTE
            && forall m :: j < m < k ==> !(ops[m].PasswordReset? && ops[m].token == ops[j].token)
  {
    ResetSince(policy, run, ops, j, k);
  }
}
