/**
 Accounts, roles, sessions and password resets (app/services/auth_service.py, app/core/authorization.py,
 app/core/security.py). Identifiers and tokens are drawn at random by the code; here they are parameters that
 have not been used before.
 */
module Accounts {
  import opened Wrappers

  type UserId = string
  /** The hash of a session or reset token. */
  type Token = string

  type Time = int

  datatype Role = Citizen | Officer | Admin | SuperAdmin | IntegrationAdmin | Auditor

  datatype User = User(email: string, passwordHash: string, role: Role, department: Option<string>, active: bool)

  datatype Session = Session(user: UserId, createdAt: Time, lastSeenAt: Time, revokedAt: Option<Time>, mobile: bool)

  datatype ResetToken = ResetToken(user: UserId, expiresAt: Time, usedAt: Option<Time>)

  /** Who is acting, as `authenticate` built it. */
  datatype Context = Context(user: UserId, role: Role, department: Option<string>)

  type Users = map<UserId, User>
  type Sessions = map<Token, Session>
  type Resets = map<Token, ResetToken>

  datatype Error = PermissionDenied | ValidationFailed | Conflict | NotFound | AuthenticationFailed

  // ---- Who may do what ----

  predicate IsPrivileged(r: Role) {
    r.Admin? || r.SuperAdmin? || r.IntegrationAdmin? || r.Auditor?
  }

  /** `can_assign_role`; no target for an account that does not exist yet. */
  predicate CanAssign(actor: Context, target: Option<UserId>, role: Role) {
    && target != Some(actor.user)
    && if IsPrivileged(role) then actor.role.SuperAdmin? else actor.role.Admin? || actor.role.SuperAdmin?
  }

  /** The actor's context is what its row says now. */
  ghost predicate IsCurrent(users: Users, actor: Context) {
    actor.user in users && users[actor.user].active && users[actor.user].role == actor.role
  }

  predicate IsActiveSuperAdmin(u: User) { u.active && u.role.SuperAdmin? }

  /** There is an active super-admin. */
  ghost predicate Governed(users: Users) {
    exists id :: id in users && IsActiveSuperAdmin(users[id])
  }

  /** The privileged accounts, with their roles and whether they are active. */
  ghost function Privileged(users: Users): map<UserId, (Role, bool)> {
    map id | id in users && IsPrivileged(users[id].role) :: (users[id].role, users[id].active)
  }

  /** One step keeps an active super-admin, and only a super-admin touches the privileged accounts. */
  ghost predicate Kept(before: Users, after: Users, actor: Option<Role>) {
    && (Governed(before) ==> Governed(after))
    && (actor != Some(SuperAdmin) ==> Privileged(after) == Privileged(before))
    && (forall id :: id in before ==> id in after)
  }

  predicate MayChangeRole(users: Users, actor: Context, id: UserId, role: Role) {
    && CanAssign(actor, Some(id), role) && id in users
    && (IsPrivileged(users[id].role) ==> actor.role.SuperAdmin?)
  }

  predicate MaySetActive(users: Users, actor: Context, id: UserId) {
    && id in users && id != actor.user
    && (IsPrivileged(users[id].role) ==> actor.role.SuperAdmin?)
  }

  lemma Unchanged(users: Users, actor: Option<Role>)
    ensures Kept(users, users, actor)
  {}

  /** Changing somebody else's row as far as the actor may. */
  lemma RowChanged(users: Users, actor: Context, id: UserId, u: User)
    requires IsCurrent(users, actor) && id in users && id != actor.user
    requires IsPrivileged(users[id].role) || IsPrivileged(u.role) ==> actor.role.SuperAdmin?
    ensures Kept(users, users[id := u], Some(actor.role))
  {
    var after := users[id := u];
    if Governed(users) {
      var x :| x in users && IsActiveSuperAdmin(users[x]);
      assert actor.role.SuperAdmin? ==> IsActiveSuperAdmin(after[actor.user]);
      assert !actor.role.SuperAdmin? ==> IsActiveSuperAdmin(after[x]);
    }
  }

  /** A new row of a role the creator may give. */
  lemma RowAdded(users: Users, id: UserId, u: User, actor: Option<Role>)
    requires id !in users && (IsPrivileged(u.role) ==> actor == Some(SuperAdmin))
    ensures Kept(users, users[id := u], actor)
  {
    var after := users[id := u];
    if x :| x in users && IsActiveSuperAdmin(users[x]) { assert IsActiveSuperAdmin(after[x]); }
  }

  /** A row that keeps its role and whether it is active. */
  lemma RowRefreshed(users: Users, id: UserId, u: User)
    requires id in users && u.role == users[id].role && u.active == users[id].active
    ensures Kept(users, users[id := u], None)
  {
    var after := users[id := u];
    if x :| x in users && IsActiveSuperAdmin(users[x]) { assert IsActiveSuperAdmin(after[x]); }
  }

  /**
   Whoever acts, a change of one row leaves an active super-admin exactly when the row is one afterwards or another
   row is one. Current contexts are needed for nothing but that: RowChanged shows the actor to be the other row.
   */
  lemma GovernedExactlyWhen(users: Users, id: UserId, u: User)
    requires id in users
    ensures Governed(users[id := u])
       <==> IsActiveSuperAdmin(u) || exists x :: x in users && x != id && IsActiveSuperAdmin(users[x])
  {
    var after := users[id := u];
    assert IsActiveSuperAdmin(u) ==> IsActiveSuperAdmin(after[id]);
    if x :| x in users && x != id && IsActiveSuperAdmin(users[x]) { assert IsActiveSuperAdmin(after[x]); }
    if x :| x in after && IsActiveSuperAdmin(after[x]) { assert x != id ==> after[x] == users[x]; }
  }

  /** A context that outlived its role is enough to lose the last super-admin, so the contexts have to be current. */
  lemma StaleContextLosesTheLast(users: Users, stale: Context, last: UserId)
    requires last in users && IsActiveSuperAdmin(users[last])
    requires forall id :: id in users && IsActiveSuperAdmin(users[id]) ==> id == last
    requires stale.role.SuperAdmin? && stale.user != last
    ensures !IsCurrent(users, stale) && MaySetActive(users, stale, last)
    ensures !Governed(users[last := users[last].(active := false)])
  {
    assert IsCurrent(users, stale) ==> IsActiveSuperAdmin(users[stale.user]);
  }

  // ---- Sessions ----

  datatype Policy = Policy(idle: Time, absolute: Time)

  const MOBILE_POLICY := Policy(14 * 24 * 60 * 60, 60 * 24 * 60 * 60)

  /** `SessionRecord.is_active` */
  predicate IsActive(s: Session, now: Time, policy: Policy) {
    s.revokedAt.None? && now - s.createdAt <= policy.absolute && now - s.lastSeenAt <= policy.idle
  }

  function RevokeAll(sessions: Sessions, user: UserId, now: Time): Sessions {
    map t | t in sessions ::
      if sessions[t].user == user && sessions[t].revokedAt.None? then sessions[t].(revokedAt := Some(now))
        else sessions[t]
  }

  /** Sessions stay on record, belong to one user, and never come back once revoked. */
  ghost predicate SessionsStep(before: Sessions, after: Sessions) {
    forall t :: t in before ==>
      && t in after && after[t].user == before[t].user && after[t].createdAt == before[t].createdAt
      && (before[t].revokedAt.Some? ==> after[t] == before[t])
  }

  ghost predicate AllRevoked(sessions: Sessions, user: UserId) {
    forall t :: t in sessions && sessions[t].user == user ==> sessions[t].revokedAt.Some?
  }

  /** A used reset token stays used. */
  ghost predicate ResetsStep(before: Resets, after: Resets) {
    forall t :: t in before ==>
      && t in after && after[t].user == before[t].user
      && (before[t].usedAt.Some? ==> after[t] == before[t])
  }

  /** Under which role, and after how many password changes, a session was opened. */
  datatype Opening = Opening(role: Role, passwords: nat)

  /** A session that is not revoked was opened under its user's present role and password. */
  ghost predicate SessionsOk(users: Users, sessions: Sessions, openings: map<Token, Opening>,
                             passwords: map<UserId, nat>) {
    && openings.Keys == sessions.Keys && passwords.Keys == users.Keys
    && (forall t :: t in sessions ==> sessions[t].user in users)
    && (forall t :: t in sessions && sessions[t].revokedAt.None? ==>
          openings[t] == Opening(users[sessions[t].user].role, passwords[sessions[t].user]))
  }

  /** Cryptography and the password policy, as far as their outcomes matter. */
  datatype Secrets = Secrets(
    verify: (string, string) -> bool, hash: string -> string, needsRehash: string -> bool,
    acceptable: (string, string) -> bool, normalize: string -> Option<string>)

  const RESET_TOKEN_TTL: Time := 60 * 60

  /** An e-mail address that can be normalised, and a password that the policy takes for it. */
  predicate CredentialsOk(secrets: Secrets, email: string, password: string) {
    secrets.normalize(email).Some? && secrets.acceptable(password, secrets.normalize(email).value)
  }

  /** The account of the address, active, with the right password. */
  predicate MayLogIn(users: Users, secrets: Secrets, id: UserId, email: string, password: string) {
    && id in users && Some(users[id].email) == secrets.normalize(email)
    && users[id].active && secrets.verify(users[id].passwordHash, password)
  }

  /** The active account of the address. */
  predicate MayReset(users: Users, secrets: Secrets, id: UserId, email: string) {
    id in users && Some(users[id].email) == secrets.normalize(email) && users[id].active
  }

  /** An officer needs a department. */
  predicate Placed(role: Role, department: Option<string>) {
    role.Officer? ==> department.Some? && department.value != ""
  }

  /** An address belongs to one account. */
  ghost predicate EmailsUnique(users: Users) {
    forall a, b :: a in users && b in users && users[a].email == users[b].email ==> a == b
  }

  lemma EmailKept(users: Users, id: UserId, u: User)
    requires EmailsUnique(users) && id in users && u.email == users[id].email
    ensures EmailsUnique(users[id := u])
  {}

  predicate EmailTaken(users: Users, email: string) {
    exists id :: id in users && users[id].email == email
  }

  lemma EmailAdded(users: Users, id: UserId, u: User)
    requires EmailsUnique(users) && !EmailTaken(users, u.email)
    ensures EmailsUnique(users[id := u])
  {}

  predicate HasSuperAdmin(users: Users) {
    exists id :: id in users && users[id].role.SuperAdmin?
  }

  /** The account looked up by its address is the only one that the address may log in to or reset. */
  lemma OneAccount(users: Users, secrets: Secrets, id: UserId, email: string, password: string)
    requires EmailsUnique(users) && id in users && Some(users[id].email) == secrets.normalize(email)
    ensures (exists x :: MayLogIn(users, secrets, x, email, password))
      <==> MayLogIn(users, secrets, id, email, password)
    ensures (exists x :: MayReset(users, secrets, x, email)) <==> MayReset(users, secrets, id, email)
  {}

  lemma NoAccount(users: Users, secrets: Secrets, email: string, password: string)
    requires secrets.normalize(email).None? || !EmailTaken(users, secrets.normalize(email).value)
    ensures !exists x :: MayLogIn(users, secrets, x, email, password)
    ensures !exists x :: MayReset(users, secrets, x, email)
  {}

  /** The context is what the row says now, and the session was opened under that role and the present password. */
  ghost predicate SignedIn(users: Users, openings: map<Token, Opening>, passwords: map<UserId, nat>, token: Token,
                           id: UserId, c: Context) {
    && id in users && c == Context(id, users[id].role, users[id].department) && IsCurrent(users, c)
    && id in passwords && token in openings && openings[token] == Opening(c.role, passwords[id])
  }

  // ---- The operations ----

  /** The three tables. */
  datatype Tables = Tables(users: Users, sessions: Sessions, resets: Resets)

  /** What an operation did, with what it was given or drew; `Refused` is one that changed nothing. */
  datatype Operation =
    | Refused
    | Registered(id: UserId, email: string, hash: string)
    | Bootstrapped(id: UserId, email: string, hash: string)
    | StaffCreated(actor: Context, id: UserId, email: string, hash: string, role: Role, department: Option<string>)
    | RoleChanged(actor: Context, id: UserId, role: Role, department: Option<string>, now: Time)
    | ActiveSet(actor: Context, id: UserId, active: bool, now: Time)
    | LoggedIn(id: UserId, rehash: Option<string>, mobile: bool, token: Token, now: Time)
    | Authenticated(token: Token, now: Time)
    | LoggedOut(token: Token, now: Time)
    | PasswordChanged(id: UserId, hash: string, now: Time)
    | ResetIssued(token: Token, id: UserId, now: Time)
    | PasswordReset(token: Token, hash: string, now: Time)

  function PolicyOf(s: Session, policy: Policy): Policy {
    if s.mobile then MOBILE_POLICY else policy
  }

  predicate Unused(users: Users, id: UserId, email: string) {
    id !in users && !EmailTaken(users, email)
  }

  /** The code's checks of the tables and of the actor's context, which may be out of date. */
  predicate Allowed(policy: Policy, t: Tables, op: Operation) {
    match op
    case Refused => true
    case Registered(id, email, _) => Unused(t.users, id, email)
    case Bootstrapped(id, email, _) => Unused(t.users, id, email) && !HasSuperAdmin(t.users)
    case StaffCreated(actor, id, email, _, role, department) =>
      Unused(t.users, id, email) && !role.Citizen? && CanAssign(actor, None, role) && Placed(role, department)
    case RoleChanged(actor, id, role, department, _) =>
      MayChangeRole(t.users, actor, id, role) && Placed(role, department)
    case ActiveSet(actor, id, _, _) => MaySetActive(t.users, actor, id)
    case LoggedIn(id, _, _, token, _) => id in t.users && t.users[id].active && token !in t.sessions
    case Authenticated(token, now) =>
      && token in t.sessions && t.sessions[token].user in t.users && t.users[t.sessions[token].user].active
      && IsActive(t.sessions[token], now, PolicyOf(t.sessions[token], policy))
    case LoggedOut(token, _) => token in t.sessions && t.sessions[token].revokedAt.None?
    case PasswordChanged(id, _, _) => id in t.users
    case ResetIssued(token, id, _) => token !in t.resets && id in t.users && t.users[id].active
    case PasswordReset(token, _, now) =>
      && token in t.resets && t.resets[token].user in t.users
      && t.resets[token].usedAt.None? && t.resets[token].expiresAt >= now
  }

  function WithPassword(t: Tables, id: UserId, hash: string, now: Time): Tables
    requires id in t.users
  {
    t.(users := t.users[id := t.users[id].(passwordHash := hash)], sessions := RevokeAll(t.sessions, id, now))
  }

  function Done(policy: Policy, t: Tables, op: Operation): Tables
    requires Allowed(policy, t, op)
  {
    match op
    case Refused => t
    case Registered(id, email, hash) => t.(users := t.users[id := User(email, hash, Citizen, None, true)])
    case Bootstrapped(id, email, hash) => t.(users := t.users[id := User(email, hash, SuperAdmin, None, true)])
    case StaffCreated(_, id, email, hash, role, department) =>
      t.(users := t.users[id := User(email, hash, role, if role.SuperAdmin? then None else department, true)])
    case RoleChanged(_, id, role, department, now) =>
      var u := t.users[id].(role := role, department := if role.Officer? || role.Admin? then department else None);
      t.(users := t.users[id := u], sessions := RevokeAll(t.sessions, id, now))
    case ActiveSet(_, id, active, now) =>
      t.(users := t.users[id := t.users[id].(active := active)],
         sessions := if active then t.sessions else RevokeAll(t.sessions, id, now))
    case LoggedIn(id, rehash, mobile, token, now) =>
      var u := if rehash.Some? then t.users[id].(passwordHash := rehash.value) else t.users[id];
      t.(users := t.users[id := u], sessions := t.sessions[token := Session(id, now, now, None, mobile)])
    case Authenticated(token, now) =>
      t.(sessions := t.sessions[token := t.sessions[token].(lastSeenAt := now)])
    case LoggedOut(token, now) =>
      t.(sessions := t.sessions[token := t.sessions[token].(revokedAt := Some(now))])
    case PasswordChanged(id, hash, now) => WithPassword(t, id, hash, now)
    case ResetIssued(token, id, now) =>
      t.(resets := t.resets[token := ResetToken(id, now + RESET_TOKEN_TTL, None)])
    case PasswordReset(token, hash, now) =>
      WithPassword(t, t.resets[token].user, hash, now).(
        resets := t.resets[token := t.resets[token].(usedAt := Some(now))])
  }

  ghost predicate Step(policy: Policy, a: Tables, b: Tables, op: Operation) {
    Allowed(policy, a, op) && b == Done(policy, a, op)
  }

  // ---- What every operation keeps ----

  /** The role under which the operation was done, if it takes one. */
  function RoleBehind(op: Operation): Option<Role> {
    if op.StaffCreated? || op.RoleChanged? || op.ActiveSet? then Some(op.actor.role)
    else if op.Bootstrapped? then Some(SuperAdmin)
    else None
  }

  /** An operation on an account that is there already is done with a context that is not out of date. */
  ghost predicate ActorIsCurrent(users: Users, op: Operation) {
    op.RoleChanged? || op.ActiveSet? ==> IsCurrent(users, op.actor)
  }

  lemma StepKeeps(policy: Policy, a: Tables, b: Tables, op: Operation)
    requires Step(policy, a, b, op) && ActorIsCurrent(a.users, op)
    ensures Kept(a.users, b.users, RoleBehind(op))
  {
    hide Kept, RevokeAll, IsActive, EmailTaken, HasSuperAdmin;
    Unchanged(a.users, RoleBehind(op));
    match op
    case Registered(id, _, _) => RowAdded(a.users, id, b.users[id], None);
    case Bootstrapped(id, _, _) => RowAdded(a.users, id, b.users[id], Some(SuperAdmin));
    case StaffCreated(actor, id, _, _, _, _) => RowAdded(a.users, id, b.users[id], Some(actor.role));
    case RoleChanged(actor, id, _, _, _) => RowChanged(a.users, actor, id, b.users[id]);
    case ActiveSet(actor, id, _, _) => RowChanged(a.users, actor, id, b.users[id]);
    case LoggedIn(id, _, _, _, _) => RowRefreshed(a.users, id, b.users[id]);
    case PasswordChanged(id, _, _) => RowRefreshed(a.users, id, b.users[id]);
    case PasswordReset(token, _, _) => RowRefreshed(a.users, a.resets[token].user, b.users[a.resets[token].user]);
    case _ =>
  }

  /** The privileged accounts are as they were, whatever the context, unless a super-admin acted or was made. */
  lemma StepKeepsPrivileged(policy: Policy, a: Tables, b: Tables, op: Operation)
    requires Step(policy, a, b, op) && RoleBehind(op) != Some(SuperAdmin)
    ensures Privileged(b.users) == Privileged(a.users)
  {
    hide RevokeAll, IsActive, EmailTaken;
    if !op.RoleChanged? && !op.ActiveSet? { StepKeeps(policy, a, b, op); }
  }

  /** The step takes the last active super-admin away: the role, or being active. */
  ghost predicate LosesTheLast(users: Users, op: Operation) {
    && ((op.RoleChanged? && !op.role.SuperAdmin?) || (op.ActiveSet? && !op.active))
    && forall x :: x in users && IsActiveSuperAdmin(users[x]) ==> x == op.id
  }

  /** Whoever acts, and with whatever context, only such a step ends the rule of active super-admins. */
  lemma GovernedUnlessTheLastIsLost(policy: Policy, a: Tables, b: Tables, op: Operation)
    requires Step(policy, a, b, op) && Governed(a.users)
    ensures Governed(b.users) <==> !LosesTheLast(a.users, op)
  {
    hide RevokeAll, IsActive, EmailTaken;
    if op.RoleChanged? || op.ActiveSet? {
      GovernedExactlyWhen(a.users, op.id, b.users[op.id]);
    } else {
      StepKeeps(policy, a, b, op);
    }
  }

  /** An actor whose context is current is another active super-admin. */
  lemma CurrentActorKeepsOne(policy: Policy, t: Tables, op: Operation)
    requires Allowed(policy, t, op) && Governed(t.users) && ActorIsCurrent(t.users, op)
    ensures !LosesTheLast(t.users, op)
  {
    GovernedUnlessTheLastIsLost(policy, t, Done(policy, t, op), op);
    StepKeeps(policy, t, Done(policy, t, op), op);
  }

  lemma StepKeepsSessions(policy: Policy, a: Tables, b: Tables, op: Operation)
    requires Step(policy, a, b, op)
    ensures SessionsStep(a.sessions, b.sessions) && ResetsStep(a.resets, b.resets)
  {
    hide EmailTaken;
  }

  lemma StepKeepsEmails(policy: Policy, a: Tables, b: Tables, op: Operation)
    requires Step(policy, a, b, op) && EmailsUnique(a.users)
    ensures EmailsUnique(b.users)
  {
    hide EmailsUnique, RevokeAll, IsActive, EmailTaken, HasSuperAdmin;
    match op
    case Registered(id, _, _) => EmailAdded(a.users, id, b.users[id]);
    case Bootstrapped(id, _, _) => EmailAdded(a.users, id, b.users[id]);
    case StaffCreated(_, id, _, _, _, _) => EmailAdded(a.users, id, b.users[id]);
    case RoleChanged(_, id, _, _, _) => EmailKept(a.users, id, b.users[id]);
    case ActiveSet(_, id, _, _) => EmailKept(a.users, id, b.users[id]);
    case LoggedIn(id, _, _, _, _) => EmailKept(a.users, id, b.users[id]);
    case PasswordChanged(id, _, _) => EmailKept(a.users, id, b.users[id]);
    case PasswordReset(token, _, _) => EmailKept(a.users, a.resets[token].user, b.users[a.resets[token].user]);
    case _ =>
  }

  /** The account whose sessions an operation ends, if it ends any. */
  function EndsSessionsOf(t: Tables, op: Operation): Option<UserId> {
    match op
    case RoleChanged(_, id, _, _, _) => Some(id)
    case ActiveSet(_, id, active, _) => if active then None else Some(id)
    case PasswordChanged(id, _, _) => Some(id)
    case PasswordReset(token, _, _) => if token in t.resets then Some(t.resets[token].user) else None
    case _ => None
  }

  lemma StepEndsSessions(policy: Policy, a: Tables, b: Tables, op: Operation, id: UserId)
    requires Step(policy, a, b, op) && EndsSessionsOf(a, op) == Some(id)
    ensures AllRevoked(b.sessions, id)
  {}

  class AuthService {
    const secrets: Secrets
    const policy: Policy
    var users: Users
    var sessions: Sessions
    var resets: Resets
    ghost var openings: map<Token, Opening>
    ghost var passwords: map<UserId, nat>

    ghost predicate Valid()
      reads this
    {
      && SessionsOk(users, sessions, openings, passwords)
      && (forall t :: t in resets ==> resets[t].user in users)
      && EmailsUnique(users)
    }

    ghost function Held(): Tables
      reads this
    {
      Tables(users, sessions, resets)
    }

    constructor (secrets: Secrets, policy: Policy)
      ensures Valid() && Held() == Tables(map[], map[], map[]) && this.secrets == secrets && this.policy == policy
    {
      this.secrets, this.policy, users, sessions, resets := secrets, policy, map[], map[], map[];
      openings, passwords := map[], map[];
    }

    // ---- Accounts ----

    method AddUser(id: UserId, u: User)
      requires Valid() && Unused(users, id, u.email)
      modifies this`users, this`passwords
      ensures Valid() && users == old(users)[id := u]
    {
      hide EmailsUnique;
      EmailAdded(users, id, u);
      users, passwords := users[id := u], passwords[id := 0];
    }

    /** Self-registration has no role to choose. */
    method Register(email: string, password: string, nameOk: bool, newId: UserId) returns (error: Option<Error>)
      requires Valid() && newId !in users
      modifies this
      ensures Valid()
      ensures error == Some(ValidationFailed) <==> !nameOk || !CredentialsOk(secrets, email, password)
      ensures error == Some(Conflict)
         <==> nameOk && CredentialsOk(secrets, email, password)
              && EmailTaken(old(users), secrets.normalize(email).value)
      ensures error.None?
         <==> nameOk && CredentialsOk(secrets, email, password)
              && !EmailTaken(old(users), secrets.normalize(email).value)
      ensures Step(policy, old(Held()), Held(), if error.Some? then Refused
                   else Registered(newId, secrets.normalize(email).value, secrets.hash(password)))
    {
      hide EmailsUnique, SessionsOk;
      var e := secrets.normalize(email);
      if e.None? || !nameOk || !secrets.acceptable(password, e.value) {
        return Some(ValidationFailed);
      }
      if EmailTaken(users, e.value) {
        return Some(Conflict);
      }
      AddUser(newId, User(e.value, secrets.hash(password), Citizen, None, true));
      error := None;
    }

    /** The first super-admin can be made once; with any super-admin on record, active or not, nothing happens. */
    method BootstrapFirstAdmin(email: string, password: string, provided: string, expected: string, newId: UserId)
      returns (error: Option<Error>)
      requires Valid() && newId !in users
      modifies this
      ensures Valid()
      ensures error == Some(PermissionDenied) <==> expected == "" || provided != expected
      ensures error == Some(ValidationFailed)
         <==> provided == expected != "" && !HasSuperAdmin(old(users)) && !CredentialsOk(secrets, email, password)
      ensures error.None?
         <==> provided == expected != "" && !HasSuperAdmin(old(users)) && CredentialsOk(secrets, email, password)
              && !EmailTaken(old(users), secrets.normalize(email).value)
      ensures Step(policy, old(Held()), Held(), if error.Some? then Refused
                   else Bootstrapped(newId, secrets.normalize(email).value, secrets.hash(password)))
    {
      hide EmailsUnique, SessionsOk;
      if expected == "" || provided != expected {
        return Some(PermissionDenied);
      }
      if HasSuperAdmin(users) {
        return Some(Conflict);
      }
      var e := secrets.normalize(email);
      if e.None? || !secrets.acceptable(password, e.value) {
        return Some(ValidationFailed);
      }
      if EmailTaken(users, e.value) {
        return Some(Conflict);
      }
      AddUser(newId, User(e.value, secrets.hash(password), SuperAdmin, None, true));
      error := None;
    }

    method CreateStaff(actor: Context, email: string, password: string, role: Role, department: Option<string>,
                       newId: UserId)
      returns (error: Option<Error>)
      requires Valid() && newId !in users
      modifies this
      ensures Valid()
      ensures error == Some(PermissionDenied) <==> role.Citizen? || !CanAssign(actor, None, role)
      ensures error == Some(ValidationFailed)
         <==> !role.Citizen? && CanAssign(actor, None, role)
              && !(Placed(role, department) && CredentialsOk(secrets, email, password))
      ensures error.None?
         <==> !role.Citizen? && CanAssign(actor, None, role) && Placed(role, department)
              && CredentialsOk(secrets, email, password) && !EmailTaken(old(users), secrets.normalize(email).value)
      ensures Step(policy, old(Held()), Held(), if error.Some? then Refused
                   else StaffCreated(actor, newId, secrets.normalize(email).value, secrets.hash(password), role,
                     department))
    {
      hide EmailsUnique, SessionsOk;
      if role.Citizen? || !CanAssign(actor, None, role) {
        return Some(PermissionDenied);
      }
      if !Placed(role, department) {
        return Some(ValidationFailed);
      }
      var e := secrets.normalize(email);
      if e.None? || !secrets.acceptable(password, e.value) {
        return Some(ValidationFailed);
      }
      if EmailTaken(users, e.value) {
        return Some(Conflict);
      }
      var u := User(e.value, secrets.hash(password), role, if role.SuperAdmin? then None else department, true);
      AddUser(newId, u);
      error := None;
    }

    lemma Revoked(users: Users, sessions: Sessions, openings: map<Token, Opening>, passwords: map<UserId, nat>,
                  id: UserId, u: User, n: nat, now: Time)
      requires SessionsOk(users, sessions, openings, passwords) && id in users
      ensures SessionsOk(users[id := u], RevokeAll(sessions, id, now), openings, passwords[id := n])
      ensures SessionsStep(sessions, RevokeAll(sessions, id, now)) && AllRevoked(RevokeAll(sessions, id, now), id)
      ensures passwords[id := passwords[id]] == passwords
    {}

    lemma KnownUsers(users: Users, sessions: Sessions, openings: map<Token, Opening>, passwords: map<UserId, nat>)
      requires SessionsOk(users, sessions, openings, passwords)
      ensures passwords.Keys == users.Keys
    {}

    /** A changed role ends every session of the account. */
    method ChangeRole(actor: Context, id: UserId, role: Role, department: Option<string>, now: Time)
      returns (error: Option<Error>)
      requires Valid()
      modifies this
      ensures Valid()
      ensures error == Some(PermissionDenied)
         <==> !CanAssign(actor, Some(id), role) || (id in old(users) && !MayChangeRole(old(users), actor, id, role))
      ensures error.None? <==> MayChangeRole(old(users), actor, id, role) && Placed(role, department)
      ensures Step(policy, old(Held()), Held(), if error.Some? then Refused
        else RoleChanged(actor, id, role, department, now))
    {
      hide EmailsUnique, SessionsOk, RevokeAll;
      if !CanAssign(actor, Some(id), role) {
        return Some(PermissionDenied);
      }
      if id !in users {
        return Some(ValidationFailed);
      }
      if IsPrivileged(users[id].role) && !actor.role.SuperAdmin? {
        return Some(PermissionDenied);
      }
      if !Placed(role, department) {
        return Some(ValidationFailed);
      }
      var u := users[id].(role := role, department := if role.Officer? || role.Admin? then department else None);
      EmailKept(users, id, u);
      KnownUsers(users, sessions, openings, passwords);
      Revoked(users, sessions, openings, passwords, id, u, passwords[id], now);
      users := users[id := u];
      sessions := RevokeAll(sessions, id, now);
      error := None;
    }

    lemma SessionsUntouched(users: Users, sessions: Sessions, openings: map<Token, Opening>,
                            passwords: map<UserId, nat>, id: UserId, u: User)
      requires SessionsOk(users, sessions, openings, passwords) && id in users && u.role == users[id].role
      ensures SessionsOk(users[id := u], sessions, openings, passwords)
    {}

    /** A deactivated account loses its sessions; nobody deactivates themselves. */
    method SetActive(actor: Context, id: UserId, active: bool, now: Time) returns (error: Option<Error>)
      requires Valid()
      modifies this
      ensures Valid()
      ensures error.None? <==> MaySetActive(old(users), actor, id)
      ensures error == Some(ValidationFailed) <==> id !in old(users) || id == actor.user
      ensures Step(policy, old(Held()), Held(), if error.Some? then Refused else ActiveSet(actor, id, active, now))
    {
      hide EmailsUnique, SessionsOk, RevokeAll;
      if id !in users || id == actor.user {
        return Some(ValidationFailed);
      }
      if IsPrivileged(users[id].role) && !actor.role.SuperAdmin? {
        return Some(PermissionDenied);
      }
      var u := users[id].(active := active);
      EmailKept(users, id, u);
      KnownUsers(users, sessions, openings, passwords);
      Revoked(users, sessions, openings, passwords, id, u, passwords[id], now);
      SessionsUntouched(users, sessions, openings, passwords, id, u);
      users := users[id := u];
      if !active {
        sessions := RevokeAll(sessions, id, now);
      }
      error := None;
    }

    // ---- Sessions ----

    lemma SessionOpened(users: Users, sessions: Sessions, openings: map<Token, Opening>, passwords: map<UserId, nat>,
                        id: UserId, token: Token, s: Session)
      requires SessionsOk(users, sessions, openings, passwords) && id in users && id in passwords && token !in sessions
        && s.user == id
      ensures SessionsOk(users, sessions[token := s], openings[token := Opening(users[id].role, passwords[id])],
        passwords)
      ensures SessionsStep(sessions, sessions[token := s])
    {}

    /** A new session of an active user whose password was given. */
    method Login(email: string, password: string, mobile: bool, token: Token, now: Time)
      returns (r: Result<Context, Error>)
      requires Valid() && token !in sessions
      modifies this
      ensures Valid()
      ensures r.Ok? <==> exists id :: MayLogIn(old(users), secrets, id, email, password)
      ensures r.Ok? ==>
        && MayLogIn(old(users), secrets, r.value.user, email, password)
        && IsCurrent(users, r.value) && users[r.value.user].department == r.value.department
      ensures r.Err? ==> Held() == old(Held())
      ensures r.Ok? ==>
        var rehash := if secrets.needsRehash(old(users)[r.value.user].passwordHash) then Some(secrets.hash(password))
          else None;
        Step(policy, old(Held()), Held(), LoggedIn(r.value.user, rehash, mobile, token, now))
    {
      hide SessionsOk, EmailsUnique;
      var e := secrets.normalize(email);
      if e.None? || !EmailTaken(users, e.value) {
        NoAccount(users, secrets, email, password);
        return Err(AuthenticationFailed);
      }
      KnownUsers(users, sessions, openings, passwords);
      var id :| id in users && users[id].email == e.value;
      OneAccount(users, secrets, id, email, password);
      if !users[id].active || !secrets.verify(users[id].passwordHash, password) {
        return Err(AuthenticationFailed);
      }
      if secrets.needsRehash(users[id].passwordHash) {
        var u := users[id].(passwordHash := secrets.hash(password));
        EmailKept(users, id, u);
        SessionsUntouched(users, sessions, openings, passwords, id, u);
        users := users[id := u];
      }
      SessionOpened(users, sessions, openings, passwords, id, token, Session(id, now, now, None, mobile));
      sessions := sessions[token := Session(id, now, now, None, mobile)];
      openings := openings[token := Opening(users[id].role, passwords[id])];
      r := Ok(Context(id, users[id].role, users[id].department));
    }

    /** The context comes from the user's row, and only from a live session of an active user. */
    method Authenticate(token: Token, now: Time) returns (r: Result<Context, Error>)
      requires Valid()
      modifies this`sessions
      ensures Valid()
      ensures r.Ok? <==> Allowed(policy, old(Held()), Authenticated(token, now))
      ensures Step(policy, old(Held()), Held(), if r.Err? then Refused else Authenticated(token, now))
      ensures r.Ok? ==> token in sessions && SignedIn(users, openings, passwords, token, sessions[token].user, r.value)
    {
      hide EmailsUnique;
      if token !in sessions || !IsActive(sessions[token], now, PolicyOf(sessions[token], policy)) {
        return Err(AuthenticationFailed);
      }
      var id := sessions[token].user;
      if id !in users || !users[id].active {
        return Err(AuthenticationFailed);
      }
      sessions := sessions[token := sessions[token].(lastSeenAt := now)];
      r := Ok(Context(id, users[id].role, users[id].department));
    }

    method Logout(token: Token, now: Time)
      requires Valid()
      modifies this`sessions
      ensures Valid()
      ensures Step(policy, old(Held()), Held(),
                   if token in old(sessions) && old(sessions)[token].revokedAt.None? then LoggedOut(token, now)
                     else Refused)
    {
      hide EmailsUnique;
      if token in sessions && sessions[token].revokedAt.None? {
        sessions := sessions[token := sessions[token].(revokedAt := Some(now))];
      }
    }

    // ---- Passwords ----

    /** The new password takes the place of the old one, and every session of the account ends. */
    method SetPassword(id: UserId, password: string, now: Time)
      requires Valid() && id in users
      modifies this`users, this`sessions, this`passwords
      ensures Valid() && Held() == WithPassword(old(Held()), id, secrets.hash(password), now)
      ensures passwords == old(passwords)[id := old(passwords)[id] + 1]
    {
      hide EmailsUnique, SessionsOk, RevokeAll;
      var u := users[id].(passwordHash := secrets.hash(password));
      EmailKept(users, id, u);
      KnownUsers(users, sessions, openings, passwords);
      Revoked(users, sessions, openings, passwords, id, u, passwords[id] + 1, now);
      users := users[id := u];
      sessions := RevokeAll(sessions, id, now);
      passwords := passwords[id := passwords[id] + 1];
    }

    method ChangePassword(actor: Context, current: string, password: string, now: Time) returns (error: Option<Error>)
      requires Valid()
      modifies this
      ensures Valid()
      ensures error == Some(AuthenticationFailed)
         <==> actor.user !in old(users) || !secrets.verify(old(users)[actor.user].passwordHash, current)
      ensures error.None?
         <==> actor.user in old(users) && secrets.verify(old(users)[actor.user].passwordHash, current)
              && secrets.acceptable(password, old(users)[actor.user].email)
      ensures Step(policy, old(Held()), Held(), if error.Some? then Refused
                   else PasswordChanged(actor.user, secrets.hash(password), now))
    {
      hide EmailsUnique, SessionsOk, RevokeAll;
      if actor.user !in users || !secrets.verify(users[actor.user].passwordHash, current) {
        return Some(AuthenticationFailed);
      }
      if !secrets.acceptable(password, users[actor.user].email) {
        return Some(ValidationFailed);
      }
      SetPassword(actor.user, password, now);
      error := None;
    }

    method RequestPasswordReset(email: string, token: Token, now: Time) returns (issued: bool)
      requires Valid() && token !in resets
      modifies this`resets
      ensures Valid()
      ensures issued <==> exists id :: MayReset(users, secrets, id, email)
      ensures issued ==> token in resets && MayReset(users, secrets, resets[token].user, email)
      ensures Step(policy, old(Held()), Held(), if !issued then Refused
        else ResetIssued(token, resets[token].user, now))
    {
      hide EmailsUnique, SessionsOk;
      var e := secrets.normalize(email);
      if e.None? || !EmailTaken(users, e.value) {
        NoAccount(users, secrets, email, "");
        return false;
      }
      var id :| id in users && users[id].email == e.value;
      OneAccount(users, secrets, id, email, "");
      if !users[id].active {
        return false;
      }
      resets := resets[token := ResetToken(id, now + RESET_TOKEN_TTL, None)];
      issued := true;
    }

    /** A reset token works once and not after its hour; using it ends every session of the account. */
    method ResetPassword(token: Token, password: string, now: Time) returns (error: Option<Error>)
      requires Valid()
      modifies this
      ensures Valid()
      ensures error == Some(AuthenticationFailed)
         <==> token !in old(resets) || old(resets)[token].usedAt.Some? || old(resets)[token].expiresAt < now
      ensures error.None?
         <==> token in old(resets) && old(resets)[token].usedAt.None? && old(resets)[token].expiresAt >= now
              && secrets.acceptable(password, old(users)[old(resets)[token].user].email)
      ensures Step(policy, old(Held()), Held(), if error.Some? then Refused
                   else PasswordReset(token, secrets.hash(password), now))
    {
      hide EmailsUnique, SessionsOk, RevokeAll;
      if token !in resets || resets[token].usedAt.Some? || resets[token].expiresAt < now {
        return Some(AuthenticationFailed);
      }
      var id := resets[token].user;
      if !secrets.acceptable(password, users[id].email) {
        return Some(ValidationFailed);
      }
      SetPassword(id, password, now);
      resets := resets[token := resets[token].(usedAt := Some(now))];
      error := None;
    }
  }

  // ---- Runs ----

  ghost predicate StepAt(policy: Policy, run: seq<Tables>, ops: seq<Operation>, i: nat)
    requires i < |ops| && |run| == |ops| + 1
  {
    Step(policy, run[i], run[i + 1], ops[i])
  }

  /** Operations one after the other, from any tables on, by actors whose contexts may be out of date. */
  ghost predicate IsRun(policy: Policy, run: seq<Tables>, ops: seq<Operation>) {
    |run| == |ops| + 1 && forall i :: 0 <= i < |ops| ==> StepAt(policy, run, ops, i)
  }

  ghost predicate ActorsAreCurrent(run: seq<Tables>, ops: seq<Operation>, i: nat, j: nat)
    requires i <= j <= |ops| <= |run|
  {
    forall k :: i <= k < j ==> ActorIsCurrent(run[k].users, ops[k])
  }

  lemma StepIsGoverned(policy: Policy, a: Tables, b: Tables, op: Operation)
    requires Step(policy, a, b, op) && ActorIsCurrent(a.users, op) && Governed(a.users)
    ensures Governed(b.users) && !op.Bootstrapped?
  {
    CurrentActorKeepsOne(policy, a, op);
    GovernedUnlessTheLastIsLost(policy, a, b, op);
  }

  /** With actors whose contexts are current, once there is an active super-admin there always is one. */
  lemma {:induction false} AlwaysGoverned(policy: Policy, run: seq<Tables>, ops: seq<Operation>, i: nat, j: nat)
    requires IsRun(policy, run, ops) && i <= j < |run| && ActorsAreCurrent(run, ops, i, j) && Governed(run[i].users)
    ensures Governed(run[j].users)
    ensures forall k :: i <= k < j ==> !ops[k].Bootstrapped?
  {
    hide Step, ActorIsCurrent, Governed;
    if i < j {
      AlwaysGoverned(policy, run, ops, i, j - 1);
      assert StepAt(policy, run, ops, j - 1);
      StepIsGoverned(policy, run[j - 1], run[j], ops[j - 1]);
    }
  }

  lemma {:induction false} GovernedUpTo(policy: Policy, run: seq<Tables>, ops: seq<Operation>, i: nat)
    requires IsRun(policy, run, ops) && i < |run| && Governed(run[0].users)
    requires forall k :: 0 <= k < |ops| ==> !LosesTheLast(run[k].users, ops[k])
    ensures Governed(run[i].users)
  {
    hide Step, Governed, LosesTheLast;
    if i > 0 {
      GovernedUpTo(policy, run, ops, i - 1);
      assert StepAt(policy, run, ops, i - 1);
      GovernedUnlessTheLastIsLost(policy, run[i - 1], run[i], ops[i - 1]);
    }
  }

  /** With contexts that may be out of date it stays so exactly as long as no step takes the last one away. */
  lemma GovernedThroughoutExactlyWhen(policy: Policy, run: seq<Tables>, ops: seq<Operation>)
    requires IsRun(policy, run, ops) && Governed(run[0].users)
    ensures (forall i :: 0 <= i < |run| ==> Governed(run[i].users))
       <==> forall k :: 0 <= k < |ops| ==> !LosesTheLast(run[k].users, ops[k])
  {
    hide Step, Governed, LosesTheLast;
    if forall i :: 0 <= i < |run| ==> Governed(run[i].users) {
      forall k: nat | k < |ops| ensures !LosesTheLast(run[k].users, ops[k]) {
        assert StepAt(policy, run, ops, k);
        GovernedUnlessTheLastIsLost(policy, run[k], run[k + 1], ops[k]);
      }
    }
    if forall k :: 0 <= k < |ops| ==> !LosesTheLast(run[k].users, ops[k]) {
      forall i: nat | i < |run| ensures Governed(run[i].users) { GovernedUpTo(policy, run, ops, i); }
    }
  }

  /** While no super-admin acts and none is set up, the privileged accounts stay as they are, whatever the contexts. */
  lemma {:induction false} PrivilegedUntouched(policy: Policy, run: seq<Tables>, ops: seq<Operation>, i: nat, j: nat)
    requires IsRun(policy, run, ops) && i <= j < |run|
    requires forall k :: i <= k < j ==> RoleBehind(ops[k]) != Some(SuperAdmin)
    ensures Privileged(run[j].users) == Privileged(run[i].users)
  {
    hide Step, Privileged;
    if i < j {
      PrivilegedUntouched(policy, run, ops, i, j - 1);
      assert StepAt(policy, run, ops, j - 1);
      StepKeepsPrivileged(policy, run[j - 1], run[j], ops[j - 1]);
    }
  }

  /** No two accounts ever get the same address. */
  lemma {:induction false} EmailsStayUnique(policy: Policy, run: seq<Tables>, ops: seq<Operation>, i: nat, j: nat)
    requires IsRun(policy, run, ops) && i <= j < |run| && EmailsUnique(run[i].users)
    ensures EmailsUnique(run[j].users)
  {
    hide Step, EmailsUnique;
    if i < j {
      EmailsStayUnique(policy, run, ops, i, j - 1);
      assert StepAt(policy, run, ops, j - 1);
      StepKeepsEmails(policy, run[j - 1], run[j], ops[j - 1]);
    }
  }

  lemma {:induction false} SessionStays(policy: Policy, run: seq<Tables>, ops: seq<Operation>, i: nat, j: nat, t: Token)
    requires IsRun(policy, run, ops) && i <= j < |run| && t in run[i].sessions
    ensures t in run[j].sessions && run[j].sessions[t].user == run[i].sessions[t].user
    ensures run[i].sessions[t].revokedAt.Some? ==> run[j].sessions[t] == run[i].sessions[t]
  {
    hide Step;
    if i < j {
      SessionStays(policy, run, ops, i, j - 1, t);
      assert StepAt(policy, run, ops, j - 1);
      StepKeepsSessions(policy, run[j - 1], run[j], ops[j - 1]);
    }
  }

  /** A session that has been revoked is never accepted again. */
  lemma RevokedForGood(policy: Policy, run: seq<Tables>, ops: seq<Operation>, i: nat, k: nat, t: Token)
    requires IsRun(policy, run, ops) && i <= k < |ops| && t in run[i].sessions && run[i].sessions[t].revokedAt.Some?
    ensures !(ops[k].Authenticated? && ops[k].token == t)
  {
    SessionStays(policy, run, ops, i, k, t);
    assert StepAt(policy, run, ops, k);
  }

  lemma {:induction false} RoleStays(policy: Policy, run: seq<Tables>, ops: seq<Operation>, i: nat, j: nat, id: UserId)
    requires IsRun(policy, run, ops) && i <= j < |run| && id in run[i].users
    requires forall m :: i <= m < j ==> !(ops[m].RoleChanged? && ops[m].id == id)
    ensures id in run[j].users && run[j].users[id].role == run[i].users[id].role
  {
    hide RevokeAll, IsActive, EmailTaken;
    if i < j {
      RoleStays(policy, run, ops, i, j - 1, id);
      assert StepAt(policy, run, ops, j - 1);
    }
  }

  lemma SessionIsOpened(policy: Policy, a: Tables, b: Tables, op: Operation)
    requires Step(policy, a, b, op) && op.LoggedIn?
    ensures op.token in b.sessions && b.sessions[op.token].user == op.id && op.id in b.users
  {}

  lemma SessionIsEnded(policy: Policy, a: Tables, b: Tables, op: Operation, t: Token)
    requires Step(policy, a, b, op) && t in b.sessions
    requires EndsSessionsOf(a, op) == Some(b.sessions[t].user) || (op.LoggedOut? && op.token == t)
    ensures b.sessions[t].revokedAt.Some?
  {
    if !op.LoggedOut? { StepEndsSessions(policy, a, b, op, b.sessions[t].user); }
  }

  /** What ends the sessions of an account, or this session, keeps it from being accepted later. */
  lemma EndedForGood(policy: Policy, run: seq<Tables>, ops: seq<Operation>, j: nat, m: nat, k: nat)
    requires IsRun(policy, run, ops) && j < m < k < |ops| && ops[j].LoggedIn?
    requires EndsSessionsOf(run[m], ops[m]) == Some(ops[j].id) || (ops[m].LoggedOut? && ops[m].token == ops[j].token)
    ensures !(ops[k].Authenticated? && ops[k].token == ops[j].token)
  {
    hide Step, AllRevoked, EndsSessionsOf;
    var t, id := ops[j].token, ops[j].id;
    assert StepAt(policy, run, ops, j) && StepAt(policy, run, ops, m);
    SessionIsOpened(policy, run[j], run[j + 1], ops[j]);
    SessionStays(policy, run, ops, j + 1, m, t);
    SessionStays(policy, run, ops, m, m + 1, t);
    SessionIsEnded(policy, run[m], run[m + 1], ops[m], t);
    RevokedForGood(policy, run, ops, m + 1, k, t);
  }

  /**
   A session that is accepted was opened under the role its account still has; no change of role or password, no
   deactivation and no logout came between.
   */
  lemma AcceptedSessionIsUndisturbed(policy: Policy, run: seq<Tables>, ops: seq<Operation>, j: nat, k: nat)
    requires IsRun(policy, run, ops) && j < k < |ops| && ops[j].LoggedIn?
    requires ops[k].Authenticated? && ops[k].token == ops[j].token
    ensures forall m :: j < m < k ==> EndsSessionsOf(run[m], ops[m]) != Some(ops[j].id)
    ensures forall m :: j < m < k ==> !(ops[m].LoggedOut? && ops[m].token == ops[j].token)
    ensures ops[j].id in run[j + 1].users && ops[j].id in run[k].users
    ensures run[k].users[ops[j].id].role == run[j + 1].users[ops[j].id].role
  {
    hide Step;
    assert StepAt(policy, run, ops, j);
    SessionIsOpened(policy, run[j], run[j + 1], ops[j]);
    forall m: nat | j < m < k
      ensures EndsSessionsOf(run[m], ops[m]) != Some(ops[j].id)
      ensures !(ops[m].LoggedOut? && ops[m].token == ops[j].token)
      ensures !(ops[m].RoleChanged? && ops[m].id == ops[j].id) {
      if EndsSessionsOf(run[m], ops[m]) == Some(ops[j].id) || (ops[m].LoggedOut? && ops[m].token == ops[j].token) {
        EndedForGood(policy, run, ops, j, m, k);
      }
    }
    RoleStays(policy, run, ops, j + 1, k, ops[j].id);
  }

  lemma {:induction false} ResetStays(policy: Policy, run: seq<Tables>, ops: seq<Operation>, i: nat, j: nat, t: Token)
    requires IsRun(policy, run, ops) && i <= j < |run| && t in run[i].resets && run[i].resets[t].usedAt.Some?
    ensures t in run[j].resets && run[j].resets[t].usedAt.Some?
  {
    hide Step;
    if i < j {
      ResetStays(policy, run, ops, i, j - 1, t);
      assert StepAt(policy, run, ops, j - 1);
      StepKeepsSessions(policy, run[j - 1], run[j], ops[j - 1]);
    }
  }

  /** A reset token works once. */
  lemma ResetWorksOnce(policy: Policy, run: seq<Tables>, ops: seq<Operation>, i: nat, k: nat)
    requires IsRun(policy, run, ops) && i < k < |ops| && ops[i].PasswordReset? && ops[k].PasswordReset?
    ensures ops[i].token != ops[k].token
  {
    assert StepAt(policy, run, ops, i) && StepAt(policy, run, ops, k);
    if ops[i].token == ops[k].token { ResetStays(policy, run, ops, i + 1, k, ops[i].token); }
  }
}
