/**
 Who gives and takes which role, by name of the roles, over whole runs (app/core/authorization.py,
 app/services/auth_service.py).
 */
module Roles {
  import opened Wrappers
  import opened Accounts

  /**
   A super-admin may give anybody else any role; an admin moves others between citizen and officer; nobody else may.
   */
  lemma RoleChangeTable(users: Users, actor: Context, id: UserId, role: Role)
    ensures MayChangeRole(users, actor, id, role)
       <==> && id in users && id != actor.user
            && (|| actor.role == SuperAdmin
                || (actor.role == Admin && users[id].role in {Citizen, Officer} && role in {Citizen, Officer}))
  {}

  /** Switching accounts on and off looks at the role of the account first: only a super-admin's touches staff roles. */
  lemma SwitchingTable(users: Users, actor: Context, id: UserId)
    ensures MaySetActive(users, actor, id)
       <==> && id in users && id != actor.user
            && (actor.role == SuperAdmin || users[id].role in {Citizen, Officer})
  {}

  lemma CreationTable(actor: Context, role: Role)
    ensures CanAssign(actor, None, role)
       <==> actor.role == SuperAdmin || (actor.role == Admin && role in {Citizen, Officer})
  {}

  /** The role that an operation gives the account. */
  function Given(op: Operation, id: UserId): Option<Role> {
    match op
    case Registered(made, _, _) => if made == id then Some(Citizen) else None
    case Bootstrapped(made, _, _) => if made == id then Some(SuperAdmin) else None
    case StaffCreated(_, made, _, _, role, _) => if made == id then Some(role) else None
    case RoleChanged(_, changed, role, _, _) => if changed == id then Some(role) else None
    case _ => None
  }

  lemma RoleOneStep(policy: Policy, a: Tables, b: Tables, op: Operation, id: UserId)
    requires Step(policy, a, b, op)
    ensures Given(op, id).Some? ==> id in b.users && b.users[id].role == Given(op, id).value
    ensures Given(op, id).None? ==>
      && (id in b.users <==> id in a.users)
      && (id in b.users ==> b.users[id].role == a.users[id].role)
  {
    hide RevokeAll, IsActive, EmailTaken, HasSuperAdmin, CanAssign;
  }

  /** Some operation before `k` was the last to give the account a role, if any did. */
  ghost predicate LastGiven(ops: seq<Operation>, m: nat, k: nat, id: UserId) {
    m < k <= |ops| && Given(ops[m], id).Some? && forall n :: m < n < k ==> Given(ops[n], id).None?
  }

  /** An account has the role it was given last. */
  lemma {:induction false} RoleIsLastGiven(policy: Policy, run: seq<Tables>, ops: seq<Operation>, m: nat, k: nat,
                                           id: UserId)
    requires IsRun(policy, run, ops) && k < |run| && LastGiven(ops, m, k, id)
    ensures id in run[k].users && run[k].users[id].role == Given(ops[m], id).value
  {
    hide Step;
    assert StepAt(policy, run, ops, k - 1);
    RoleOneStep(policy, run[k - 1], run[k], ops[k - 1], id);
    if m < k - 1 { RoleIsLastGiven(policy, run, ops, m, k - 1, id); }
  }

  /** Who may be behind an operation that gives a role: nobody gives one to himself. */
  lemma WhoMayGive(policy: Policy, t: Tables, op: Operation, id: UserId)
    requires Allowed(policy, t, op) && Given(op, id).Some?
    ensures Given(op, id).value in {Admin, SuperAdmin, IntegrationAdmin, Auditor} ==>
      op.Bootstrapped? || ((op.StaffCreated? || op.RoleChanged?) && op.actor.role == SuperAdmin)
    ensures Given(op, id).value == Officer ==>
      (op.StaffCreated? || op.RoleChanged?) && op.actor.role in {Admin, SuperAdmin}
    ensures Given(op, id).value == Citizen ==>
      op.Registered? || (op.RoleChanged? && op.actor.role in {Admin, SuperAdmin})
    ensures op.RoleChanged? || op.ActiveSet? ==> op.actor.user != id
    ensures !op.RoleChanged? ==> id !in t.users
  {
    hide IsActive, EmailTaken;
  }

  lemma StepIsAllowed(policy: Policy, a: Tables, b: Tables, op: Operation)
    requires Step(policy, a, b, op)
    ensures Allowed(policy, a, op)
  {
    hide Allowed, Done;
  }

  /**
   A staff role was there from the start, or was given: the privileged ones by a super-admin or in setting up the
   first one, an officer's by an admin or super-admin.
   */
  lemma {:induction false} StaffRoleHasASource(policy: Policy, run: seq<Tables>, ops: seq<Operation>, k: nat,
                                               id: UserId)
    requires IsRun(policy, run, ops) && k < |run| && id in run[k].users && run[k].users[id].role != Citizen
    ensures || (id in run[0].users && run[0].users[id].role == run[k].users[id].role)
            || exists m :: && 0 <= m < k && Given(ops[m], id) == Some(run[k].users[id].role)
                           && (ops[m].Bootstrapped? || ops[m].StaffCreated? || ops[m].RoleChanged?)
                           && (!ops[m].Bootstrapped? ==>
                                 || ops[m].actor.role == SuperAdmin
                                 || (ops[m].actor.role == Admin && run[k].users[id].role == Officer))
  {
    hide Step;
    if k > 0 {
      assert StepAt(policy, run, ops, k - 1);
      RoleOneStep(policy, run[k - 1], run[k], ops[k - 1], id);
      if Given(ops[k - 1], id).None? {
        StaffRoleHasASource(policy, run, ops, k - 1, id);
      } else {
        StepIsAllowed(policy, run[k - 1], run[k], ops[k - 1]);
        WhoMayGive(policy, run[k - 1], ops[k - 1], id);
      }
    }
  }

  /** As long as no super-admin acts and none is set up, the same accounts hold each of the four privileged roles. */
  lemma SameHolders(policy: Policy, run: seq<Tables>, ops: seq<Operation>, i: nat, j: nat, id: UserId,
                    r: Role)
    requires IsRun(policy, run, ops) && i <= j < |run| && r in {Admin, SuperAdmin, IntegrationAdmin, Auditor}
    requires forall k :: i <= k < j ==> RoleBehind(ops[k]) != Some(SuperAdmin)
    ensures id in run[j].users && run[j].users[id].role == r <==> id in run[i].users && run[i].users[id].role == r
    ensures id in run[i].users && run[i].users[id].role == r ==> run[j].users[id].active == run[i].users[id].active
  {
    PrivilegedUntouched(policy, run, ops, i, j);
    assert id in Privileged(run[j].users) <==> id in Privileged(run[i].users);
    assert id in Privileged(run[j].users) ==> Privileged(run[j].users)[id] == Privileged(run[i].users)[id];
  }

  // ---- Officers ----

  /** Every officer has a department, by name. */
  ghost predicate OfficersPlaced(users: Users) {
    forall id :: id in users && users[id].role == Officer ==>
      exists name: string :: name != "" && users[id].department == Some(name)
  }

  lemma PlacementKept(policy: Policy, a: Tables, b: Tables, op: Operation)
    requires Step(policy, a, b, op) && OfficersPlaced(a.users)
    ensures OfficersPlaced(b.users)
  {
    hide RevokeAll, IsActive, EmailTaken, HasSuperAdmin, CanAssign;
  }

  /** In every run that starts so, each officer has a department throughout. */
  lemma {:induction false} OfficersArePlaced(policy: Policy, run: seq<Tables>, ops: seq<Operation>, k: nat)
    requires IsRun(policy, run, ops) && k < |run| && OfficersPlaced(run[0].users)
    ensures OfficersPlaced(run[k].users)
  {
    hide Step, OfficersPlaced;
    if k > 0 {
      OfficersArePlaced(policy, run, ops, k - 1);
      assert StepAt(policy, run, ops, k - 1);
      PlacementKept(policy, run[k - 1], run[k], ops[k - 1]);
    }
  }
}
