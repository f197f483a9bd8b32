/**
 Users, teams, projects and their members: the administration of services/vdoc/store.go and the
 rules of domain/project/query.go. One operation runs at a time; names, mail addresses and passwords
 are left to the argument checks, whose outcome each operation is told. */
module Administrators {
  import opened Wrappers

  type Id = nat

  datatype Error = NotFound | PermissionDenied | InvalidArgument | FailedPrecondition | AlreadyExists

  const USER_ACTIVE: int := 1
  const USER_DISABLED: int := 2
  const ROLE_READER: int := 1
  const ROLE_ADMIN: int := 3

  datatype User = User(status: int, superAdmin: bool)

  datatype Project = Project(team: Id, active: bool)

  datatype Member = Member(role: int, active: bool)

  /** Everything the administrator rules look at; a member is known by project and user. */
  datatype Directory = Directory(users: map<Id, User>, teams: set<Id>, projects: map<Id, Project>,
                                 members: map<(Id, Id), Member>)

  // Permissions

  predicate IsActive(d: Directory, user: Id) {
    user in d.users && d.users[user].status == USER_ACTIVE
  }

  predicate IsSuperAdmin(d: Directory, user: Id) {
    IsActive(d, user) && d.users[user].superAdmin
  }

  /** isActiveProjectAdminLocked. */
  predicate IsProjectAdmin(d: Directory, project: Id, user: Id) {
    && (project, user) in d.members && d.members[(project, user)].active
    && d.members[(project, user)].role == ROLE_ADMIN && IsActive(d, user)
  }

  predicate CanManage(d: Directory, user: Id, project: Id) {
    IsSuperAdmin(d, user) || IsProjectAdmin(d, project, user)
  }

  ghost predicate OtherSuperAdmin(d: Directory, user: Id) {
    exists x :: x != user && IsSuperAdmin(d, x)
  }

  /** hasOtherActiveProjectAdminLocked. */
  ghost predicate OtherProjectAdmin(d: Directory, project: Id, user: Id) {
    exists x :: x != user && IsProjectAdmin(d, project, x)
  }

  // The operations

  ghost function Register(d: Directory, id: Id, refused: Option<Error>): Result<Directory, Error> {
    if refused.Some? then Err(refused.value)
    else Ok(d.(users := d.users[id := User(USER_ACTIVE, d.users == map[])]))
  }

  ghost function CreateUser(d: Directory, actor: Id, id: Id, superAdmin: bool,
                            refused: Option<Error>): Result<Directory, Error> {
    if !IsSuperAdmin(d, actor) then Err(PermissionDenied)
    else if refused.Some? then Err(refused.value)
    else Ok(d.(users := d.users[id := User(USER_ACTIVE, superAdmin)]))
  }

  /** Disabling this user leaves some active project without an administrator. */
  ghost predicate LastAdminSomewhere(d: Directory, user: Id) {
    exists p :: p in d.projects && d.projects[p].active && IsProjectAdmin(d, p, user) && !OtherProjectAdmin(d, p, user)
  }

  ghost function PatchUser(d: Directory, actor: Id, user: Id, status: Option<int>,
                           superAdmin: Option<bool>): Result<Directory, Error> {
    if !IsSuperAdmin(d, actor) then Err(PermissionDenied)
    else if user !in d.users then Err(NotFound)
    else
      var u := d.users[user];
      var v := User(status.GetOr(u.status), superAdmin.GetOr(u.superAdmin));
      if status.Some? && status.value != USER_ACTIVE && status.value != USER_DISABLED then Err(InvalidArgument)
      else if IsSuperAdmin(d, user) && (v.status != USER_ACTIVE || !v.superAdmin) && !OtherSuperAdmin(d, user) then
        Err(FailedPrecondition)
      else if u.status == USER_ACTIVE && v.status != USER_ACTIVE
        && LastAdminSomewhere(d, user) then Err(FailedPrecondition)
      else Ok(d.(users := d.users[user := v]))
  }

  ghost function CreateTeam(d: Directory, actor: Id, id: Id, refused: Option<Error>): Result<Directory, Error> {
    if !IsSuperAdmin(d, actor) then Err(PermissionDenied)
    else if refused.Some? then Err(refused.value)
    else Ok(d.(teams := d.teams + {id}))
  }

  ghost predicate TeamInUse(d: Directory, team: Id) {
    exists p :: p in d.projects && d.projects[p].team == team && d.projects[p].active
  }

  ghost function ArchiveTeam(d: Directory, actor: Id, team: Id): Result<Directory, Error> {
    if !IsSuperAdmin(d, actor) then Err(PermissionDenied)
    else if team !in d.teams then Err(NotFound)
    else if TeamInUse(d, team) then Err(FailedPrecondition)
    else Ok(d.(teams := d.teams - {team}))
  }

  ghost function CreateProject(d: Directory, actor: Id, team: Id, admin: Option<Id>, id: Id,
                               refused: Option<Error>): Result<Directory, Error> {
    var a := admin.GetOr(actor);
    if !IsSuperAdmin(d, actor) then Err(PermissionDenied)
    else if team !in d.teams || a !in d.users then Err(NotFound)
    else if d.users[a].status != USER_ACTIVE then Err(FailedPrecondition)
    else if refused.Some? then Err(refused.value)
    else Ok(d.(projects := d.projects[id := Project(team, true)],
               members := d.members[(id, a) := Member(ROLE_ADMIN, true)]))
  }

  ghost function ArchiveProject(d: Directory, actor: Id, project: Id): Result<Directory, Error> {
    if !CanManage(d, actor, project) then Err(PermissionDenied)
    else if project !in d.projects then Err(NotFound)
    else if !d.projects[project].active then Err(FailedPrecondition)
    else Ok(d.(projects := d.projects[project := d.projects[project].(active := false)]))
  }

  predicate ValidRole(role: int) {
    ROLE_READER <= role <= ROLE_ADMIN
  }

  ghost function AddMember(d: Directory, actor: Id, project: Id, user: Id, role: int): Result<Directory, Error> {
    if !CanManage(d, actor, project) then Err(PermissionDenied)
    else if project !in d.projects then Err(NotFound)
    else if !d.projects[project].active then Err(FailedPrecondition)
    else if user !in d.users then Err(NotFound)
    else if !ValidRole(role) then Err(InvalidArgument)
    else if role == ROLE_ADMIN && d.users[user].status != USER_ACTIVE then Err(FailedPrecondition)
    else if (project, user) in d.members && d.members[(project, user)].active then Err(AlreadyExists)
    else Ok(d.(members := d.members[(project, user) := Member(role, true)]))
  }

  ghost function PatchRole(d: Directory, actor: Id, project: Id, user: Id, role: int): Result<Directory, Error> {
    if !CanManage(d, actor, project) then Err(PermissionDenied)
    else if project !in d.projects then Err(NotFound)
    else if !d.projects[project].active then Err(FailedPrecondition)
    else if (project, user) !in d.members || !d.members[(project, user)].active then Err(NotFound)
    else if !ValidRole(role) then Err(InvalidArgument)
    else if role == ROLE_ADMIN && !IsActive(d, user) then Err(FailedPrecondition)
    else if d.members[(project, user)].role == ROLE_ADMIN && role != ROLE_ADMIN
      && !OtherProjectAdmin(d, project, user) then
      Err(FailedPrecondition)
    else Ok(d.(members := d.members[(project, user) := d.members[(project, user)].(role := role)]))
  }

  ghost function RemoveMember(d: Directory, actor: Id, project: Id, user: Id): Result<Directory, Error> {
    if !CanManage(d, actor, project) then Err(PermissionDenied)
    else if project !in d.projects then Err(NotFound)
    else if !d.projects[project].active then Err(FailedPrecondition)
    else if (project, user) !in d.members || !d.members[(project, user)].active then Err(NotFound)
    else if d.members[(project, user)].role == ROLE_ADMIN
      && !OtherProjectAdmin(d, project, user) then Err(FailedPrecondition)
    else Ok(d.(members := d.members[(project, user) := d.members[(project, user)].(active := false)]))
  }

  // What every sequence of operations keeps

  ghost predicate Administered(d: Directory, project: Id)
    requires project in d.projects
  {
    d.projects[project].active ==> d.projects[project].team in d.teams && exists x :: IsProjectAdmin(d, project, x)
  }

  /** Someone can always administer the system, and every active project. */
  ghost predicate Inv(d: Directory) {
    && (d.users != map[] ==> exists x :: IsSuperAdmin(d, x))
    && forall p | p in d.projects :: Administered(d, p)
  }

  datatype Operation =
    | DoRegister(id: Id, refused: Option<Error>)
    | DoCreateUser(actor: Id, id: Id, superAdmin: bool, refused: Option<Error>)
    | DoPatchUser(actor: Id, user: Id, status: Option<int>, super: Option<bool>)
    | DoCreateTeam(actor: Id, id: Id, refused: Option<Error>)
    | DoArchiveTeam(actor: Id, team: Id)
    | DoCreateProject(actor: Id, team: Id, admin: Option<Id>, id: Id, refused: Option<Error>)
    | DoArchiveProject(actor: Id, project: Id)
    | DoAddMember(actor: Id, project: Id, user: Id, role: int)
    | DoPatchRole(actor: Id, project: Id, user: Id, role: int)
    | DoRemoveMember(actor: Id, project: Id, user: Id)

  ghost function Apply(d: Directory, op: Operation): Result<Directory, Error> {
    match op
    case DoRegister(id, refused) => Register(d, id, refused)
    case DoCreateUser(actor, id, superAdmin, refused) => CreateUser(d, actor, id, superAdmin, refused)
    case DoPatchUser(actor, user, status, superAdmin) => PatchUser(d, actor, user, status, superAdmin)
    case DoCreateTeam(actor, id, refused) => CreateTeam(d, actor, id, refused)
    case DoArchiveTeam(actor, team) => ArchiveTeam(d, actor, team)
    case DoCreateProject(actor, team, admin, id, refused) => CreateProject(d, actor, team, admin, id, refused)
    case DoArchiveProject(actor, project) => ArchiveProject(d, actor, project)
    case DoAddMember(actor, project, user, role) => AddMember(d, actor, project, user, role)
    case DoPatchRole(actor, project, user, role) => PatchRole(d, actor, project, user, role)
    case DoRemoveMember(actor, project, user) => RemoveMember(d, actor, project, user)
  }

  /** New ids are new. */
  predicate Possible(d: Directory, op: Operation) {
    match op
    case DoRegister(id, _) => id !in d.users
    case DoCreateUser(_, id, _, _) => id !in d.users
    case DoCreateTeam(_, id, _) => id !in d.teams
    case DoCreateProject(_, _, _, id, _) => id !in d.projects
    case _ => true
  }

  /** A project keeps an administrator if each of its administrators stays one, or a different one is left. */
  lemma AdminStays(d: Directory, e: Directory, project: Id, gone: Id)
    requires exists x :: IsProjectAdmin(d, project, x)
    requires forall x | x != gone && IsProjectAdmin(d, project, x) :: IsProjectAdmin(e, project, x)
    requires IsProjectAdmin(d, project, gone) && !IsProjectAdmin(e, project, gone) ==>
             OtherProjectAdmin(d, project, gone)
    ensures exists x :: IsProjectAdmin(e, project, x)
  {
    var x :| IsProjectAdmin(d, project, x);
    if x == gone && !IsProjectAdmin(e, project, gone) {
      var y :| y != gone && IsProjectAdmin(d, project, y);
      assert IsProjectAdmin(e, project, y);
    } else {
      assert IsProjectAdmin(e, project, x);
    }
  }

  lemma UsersKeep(d: Directory, op: Operation)
    requires Inv(d) && Possible(d, op) && (op.DoRegister? || op.DoCreateUser?) && Apply(d, op).Ok?
    ensures Inv(Apply(d, op).value)
  {
    var e := Apply(d, op).value;
    if d.users == map[] {
      assert IsSuperAdmin(e, op.id);
    } else {
      var x :| IsSuperAdmin(d, x);
      assert IsSuperAdmin(e, x);
    }
    forall p | p in e.projects ensures Administered(e, p) {
      assert Administered(d, p);
      if e.projects[p].active {
        AdminStays(d, e, p, op.id);
      }
    }
  }

  lemma PatchUserKeeps(d: Directory, actor: Id, user: Id, status: Option<int>, superAdmin: Option<bool>)
    requires Inv(d) && PatchUser(d, actor, user, status, superAdmin).Ok?
    ensures Inv(PatchUser(d, actor, user, status, superAdmin).value)
  {
    var e := PatchUser(d, actor, user, status, superAdmin).value;
    var x :| IsSuperAdmin(d, x);
    if x == user && !IsSuperAdmin(e, user) {
      var y :| y != user && IsSuperAdmin(d, y);
      assert IsSuperAdmin(e, y);
    } else {
      assert IsSuperAdmin(e, x);
    }
    forall p | p in e.projects ensures Administered(e, p) {
      assert Administered(d, p);
      if e.projects[p].active {
        AdminStays(d, e, p, user);
      }
    }
  }

  lemma TeamsKeep(d: Directory, op: Operation)
    requires Inv(d) && Possible(d, op) && (op.DoCreateTeam? || op.DoArchiveTeam?) && Apply(d, op).Ok?
    ensures Inv(Apply(d, op).value)
  {
    var e := Apply(d, op).value;
    var x :| IsSuperAdmin(d, x);
    assert IsSuperAdmin(e, x);
    forall p | p in e.projects ensures Administered(e, p) {
      assert Administered(d, p);
      if e.projects[p].active {
        var y :| IsProjectAdmin(d, p, y);
        assert IsProjectAdmin(e, p, y);
      }
    }
  }

  lemma ProjectsKeep(d: Directory, op: Operation)
    requires Inv(d) && Possible(d, op) && (op.DoCreateProject? || op.DoArchiveProject?) && Apply(d, op).Ok?
    ensures Inv(Apply(d, op).value)
  {
    var e := Apply(d, op).value;
    assert d.users != map[] ==> exists x :: IsSuperAdmin(d, x) && IsSuperAdmin(e, x);
    forall p | p in e.projects ensures Administered(e, p) {
      if op.DoCreateProject? && p == op.id {
        assert IsProjectAdmin(e, p, op.admin.GetOr(op.actor));
      } else {
        assert Administered(d, p);
        if e.projects[p].active {
          var y :| IsProjectAdmin(d, p, y);
          assert IsProjectAdmin(e, p, y);
        }
      }
    }
  }

  lemma MembersKeep(d: Directory, op: Operation)
    requires Inv(d) && (op.DoAddMember? || op.DoPatchRole? || op.DoRemoveMember?) && Apply(d, op).Ok?
    ensures Inv(Apply(d, op).value)
  {
    var e := Apply(d, op).value;
    assert d.users != map[] ==> exists x :: IsSuperAdmin(d, x) && IsSuperAdmin(e, x);
    forall p | p in e.projects ensures Administered(e, p) {
      assert Administered(d, p);
      if e.projects[p].active {
        AdminStays(d, e, p, op.user);
      }
    }
  }

  lemma ApplyKeeps(d: Directory, op: Operation)
    requires Inv(d) && Possible(d, op) && Apply(d, op).Ok?
    ensures Inv(Apply(d, op).value)
  {
    hide Inv;
    if op.DoRegister? || op.DoCreateUser? {
      UsersKeep(d, op);
    } else if op.DoPatchUser? {
      PatchUserKeeps(d, op.actor, op.user, op.status, op.super);
    } else if op.DoCreateTeam? || op.DoArchiveTeam? {
      TeamsKeep(d, op);
    } else if op.DoCreateProject? || op.DoArchiveProject? {
      ProjectsKeep(d, op);
    } else {
      MembersKeep(d, op);
    }
  }

  ghost predicate Step(d: Directory, e: Directory) {
    exists op :: Possible(d, op) && (Apply(d, op) == Ok(e) || (Apply(d, op).Err? && e == d))
  }

  ghost predicate Run(trace: seq<Directory>) {
    && trace != [] && trace[0] == Directory(map[], {}, map[], map[])
    && forall i | 0 <= i < |trace| - 1 :: Step(trace[i], trace[i + 1])
  }

  /** In every run, whatever is tried in whatever order, the administrators never run out. */
  lemma {:induction false} AdministratorsRemain(trace: seq<Directory>, i: nat)
    requires Run(trace) && i < |trace|
    ensures Inv(trace[i])
    decreases i
  {
    hide Apply;
    hide Possible;
    if i > 0 {
      AdministratorsRemain(trace, i - 1);
      hide Inv;
      var d, e := trace[i - 1], trace[i];
      assert Step(d, e);
      var op :| Possible(d, op) && (Apply(d, op) == Ok(e) || (Apply(d, op).Err? && e == d));
      if Apply(d, op).Ok? {
        ApplyKeeps(d, op);
      }
    }
  }

  /** The last-administrator guards refuse exactly what would break the rules. */
  lemma PatchUserGuardExact(d: Directory, actor: Id, user: Id, status: Option<int>, superAdmin: Option<bool>)
    requires Inv(d) && IsSuperAdmin(d, actor) && user in d.users
    requires status.Some? ==> status.value == USER_ACTIVE || status.value == USER_DISABLED
    ensures var u := d.users[user];
            PatchUser(d, actor, user, status, superAdmin).Ok? <==>
            Inv(d.(users := d.users[user := User(status.GetOr(u.status), superAdmin.GetOr(u.superAdmin))]))
  {
    var u := d.users[user];
    var e := d.(users := d.users[user := User(status.GetOr(u.status), superAdmin.GetOr(u.superAdmin))]);
    if PatchUser(d, actor, user, status, superAdmin).Ok? {
      PatchUserKeeps(d, actor, user, status, superAdmin);
    } else if Inv(e) {
      assert user in e.users;
      var x :| IsSuperAdmin(e, x);
      if x != user {
        assert IsSuperAdmin(d, x);
        assert OtherSuperAdmin(d, user);
      }
      assert LastAdminSomewhere(d, user);
      var p :| p in d.projects && d.projects[p].active && IsProjectAdmin(d, p, user) && !OtherProjectAdmin(d, p, user);
      assert Administered(e, p);
      var y :| IsProjectAdmin(e, p, y);
      assert y != user ==> IsProjectAdmin(d, p, y);
    }
  }

  lemma MemberGuardExact(d: Directory, actor: Id, project: Id, user: Id, m: Member)
    requires Inv(d) && CanManage(d, actor, project) && project in d.projects && d.projects[project].active
    requires (project, user) in d.members && d.members[(project, user)].active
    requires m.active ==> ValidRole(m.role) && (m.role == ROLE_ADMIN ==> IsActive(d, user))
    requires !m.active ==> m.role == d.members[(project, user)].role
    ensures (if m.active then PatchRole(d, actor, project, user, m.role)
             else RemoveMember(d, actor, project, user)).Ok? <==>
            Inv(d.(members := d.members[(project, user) := m]))
  {
    var e := d.(members := d.members[(project, user) := m]);
    if (if m.active then PatchRole(d, actor, project, user, m.role) else RemoveMember(d, actor, project, user)).Ok? {
      MembersKeep(d, if m.active then DoPatchRole(actor, project, user, m.role)
                  else DoRemoveMember(actor, project, user));
    } else if Inv(e) {
      assert Administered(e, project);
      var y :| IsProjectAdmin(e, project, y);
      assert y != user;
      assert IsProjectAdmin(d, project, y);
    }
  }

  // Which role a member has

  /** The membership an operation hands out, with its role. */
  function Grants(op: Operation): Option<((Id, Id), int)> {
    match op
    case DoAddMember(_, project, user, role) => Some(((project, user), role))
    case DoPatchRole(_, project, user, role) => Some(((project, user), role))
    case DoCreateProject(actor, _, admin, id, _) => Some(((id, admin.GetOr(actor)), ROLE_ADMIN))
    case _ => None
  }

  predicate Changes(op: Operation, key: (Id, Id)) {
    (Grants(op).Some? && Grants(op).value.0 == key) || (op.DoRemoveMember? && (op.project, op.user) == key)
  }

  /** A run together with the operation of each of its steps. */
  ghost predicate Operated(trace: seq<Directory>, ops: seq<Operation>) {
    && |trace| == |ops| + 1 && trace[0] == Directory(map[], {}, map[], map[])
    && forall i | 0 <= i < |ops| ::
         Possible(trace[i], ops[i])
         && trace[i + 1] == if Apply(trace[i], ops[i]).Ok? then Apply(trace[i], ops[i]).value else trace[i]
  }

  /** Nothing was accepted since step i that would change the membership. */
  ghost predicate Untouched(trace: seq<Directory>, ops: seq<Operation>, i: nat, k: nat, key: (Id, Id))
    requires k <= |ops| <= |trace|
  {
    forall m | i < m < k && Apply(trace[m], ops[m]).Ok? :: !Changes(ops[m], key)
  }

  lemma MembershipChanges(d: Directory, op: Operation, key: (Id, Id))
    requires Apply(d, op).Ok?
    ensures var e := Apply(d, op).value;
            if Grants(op).Some? && Grants(op).value.0 == key
            then key in e.members && e.members[key] == Member(Grants(op).value.1, true)
            else if Changes(op, key) then key in e.members && !e.members[key].active
            else (key in e.members <==> key in d.members) && (key in e.members ==> e.members[key] == d.members[key])
  {
    hide OtherProjectAdmin;
    hide CanManage;
    hide IsSuperAdmin;
    hide LastAdminSomewhere;
    hide TeamInUse;
  }

  /** An active member has the role of the last accepted operation about the membership, which gave it. */
  lemma {:induction false} RolesAreGranted(trace: seq<Directory>, ops: seq<Operation>, k: nat, key: (Id, Id))
    returns (i: nat)
    requires Operated(trace, ops) && k < |trace| && key in trace[k].members && trace[k].members[key].active
    ensures i < k && Apply(trace[i], ops[i]).Ok? && Grants(ops[i]) == Some((key, trace[k].members[key].role))
    ensures Untouched(trace, ops, i, k, key)
    decreases k
  {
    hide Apply;
    hide Possible;
    var d, op := trace[k - 1], ops[k - 1];
    if Apply(d, op).Ok? {
      MembershipChanges(d, op, key);
    }
    if Apply(d, op).Ok? && Changes(op, key) {
      i := k - 1;
    } else {
      i := RolesAreGranted(trace, ops, k - 1, key);
    }
  }

  // What a user is

  datatype Trait = Status | Super

  /** The trait as a number: the status, or whether the user is a SuperAdmin. */
  function TraitOf(u: User, t: Trait): int {
    if t == Status then u.status else if u.superAdmin then 1 else 0
  }

  function AsNumber(superAdmin: Option<bool>): Option<int> {
    if superAdmin.None? then None else Some(if superAdmin.value then 1 else 0)
  }

  /** What an operation says about a user; whoever registers first is a SuperAdmin. */
  function Sets(op: Operation, user: Id, t: Trait, first: bool): Option<int> {
    match op
    case DoRegister(id, _) =>
      if id != user then None else if t == Status then Some(USER_ACTIVE) else AsNumber(Some(first))
    case DoCreateUser(_, id, superAdmin, _) =>
      if id != user then None else if t == Status then Some(USER_ACTIVE) else AsNumber(Some(superAdmin))
    case DoPatchUser(_, id, status, superAdmin) =>
      if id != user then None else if t == Status then status else AsNumber(superAdmin)
    case _ => None
  }

  lemma UserChanges(d: Directory, op: Operation, user: Id, t: Trait)
    requires Apply(d, op).Ok? && user in Apply(d, op).value.users
    ensures var (e, said) := (Apply(d, op).value, Sets(op, user, t, d.users == map[]));
            if said.Some? then TraitOf(e.users[user], t) == said.value
            else user in d.users && TraitOf(e.users[user], t) == TraitOf(d.users[user], t)
  {
    hide OtherProjectAdmin;
    hide OtherSuperAdmin;
    hide CanManage;
    hide IsSuperAdmin;
    hide LastAdminSomewhere;
    hide TeamInUse;
  }

  /** Nothing was accepted since step i that says otherwise. */
  ghost predicate Unset(trace: seq<Directory>, ops: seq<Operation>, i: nat, k: nat, user: Id, t: Trait)
    requires k <= |ops| <= |trace|
  {
    forall m | i < m < k && Apply(trace[m], ops[m]).Ok? :: Sets(ops[m], user, t, trace[m].users == map[]).None?
  }

  /** A user is what the last accepted operation about the trait said. */
  lemma {:induction false} TraitsAreSet(trace: seq<Directory>, ops: seq<Operation>, k: nat, user: Id, t: Trait)
    returns (i: nat)
    requires Operated(trace, ops) && k < |trace| && user in trace[k].users
    ensures i < k && Apply(trace[i], ops[i]).Ok?
    ensures Sets(ops[i], user, t, trace[i].users == map[]) == Some(TraitOf(trace[k].users[user], t))
    ensures Unset(trace, ops, i, k, user, t)
    decreases k
  {
    hide Apply;
    hide Possible;
    hide Sets;
    hide TraitOf;
    var d, op := trace[k - 1], ops[k - 1];
    if Apply(d, op).Ok? {
      UserChanges(d, op, user, t);
    }
    if Apply(d, op).Ok? && Sets(op, user, t, d.users == map[]).Some? {
      i := k - 1;
    } else {
      i := TraitsAreSet(trace, ops, k - 1, user, t);
    }
  }

  // The store

  class DirectoryStore {
    var users: map<Id, User>
    var teams: set<Id>
    var projects: map<Id, Project>
    var members: map<(Id, Id), Member>

    function State(): Directory
      reads this
    {
      Directory(users, teams, projects, members)
    }

    constructor ()
      ensures State() == Directory(map[], {}, map[], map[]) && Inv(State())
    {
      users, teams, projects, members := map[], {}, map[], map[];
    }

    ghost predicate Becomes(before: Directory, r: Result<Directory, Error>, error: Option<Error>)
      reads this
    {
      match r
      case Ok(after) => error.None? && State() == after && (Inv(before) ==> Inv(State()))
      case Err(e) => error == Some(e) && State() == before
    }

    method HasOtherActiveSuperAdmin(user: Id) returns (other: bool)
      ensures other <==> OtherSuperAdmin(State(), user)
    {
      var todo := users.Keys;
      while todo != {}
        invariant todo <= users.Keys
        invariant forall x | x in users.Keys - todo && x != user :: !IsSuperAdmin(State(), x)
        decreases todo
      {
        var x :| x in todo;
        if x != user && users[x].status == USER_ACTIVE && users[x].superAdmin {
          assert IsSuperAdmin(State(), x);
          return true;
        }
        todo := todo - {x};
      }
      return false;
    }

    method HasOtherActiveProjectAdmin(project: Id, user: Id) returns (other: bool)
      ensures other <==> OtherProjectAdmin(State(), project, user)
    {
      var todo := members.Keys;
      while todo != {}
        invariant todo <= members.Keys
        invariant forall k | k in members.Keys - todo && k.0 == project && k.1 != user ::
                  !IsProjectAdmin(State(), project, k.1)
        decreases todo
      {
        var k :| k in todo;
        todo := todo - {k};
        if k.0 != project || k.1 == user {
          continue;
        }
        if IsProjectAdmin(State(), project, k.1) {
          return true;
        }
      }
      assert forall x: Id :: IsProjectAdmin(State(), project, x) ==> (project, x) in members.Keys;
      return false;
    }

    method IsLastAdminSomewhere(user: Id) returns (last: bool)
      ensures last <==> LastAdminSomewhere(State(), user)
    {
      var todo := projects.Keys;
      while todo != {}
        invariant todo <= projects.Keys
        invariant forall p | p in projects.Keys - todo ::
                    !(projects[p].active && IsProjectAdmin(State(), p, user) && !OtherProjectAdmin(State(), p, user))
        decreases todo
      {
        var p :| p in todo;
        var other := HasOtherActiveProjectAdmin(p, user);
        if projects[p].active && IsProjectAdmin(State(), p, user) && !other {
          return true;
        }
        todo := todo - {p};
      }
      return false;
    }

    method RegisterUser(id: Id, refused: Option<Error>) returns (error: Option<Error>)
      requires id !in users
      modifies this
      ensures Becomes(old(State()), Register(old(State()), id, refused), error)
    {
      ghost var d := State();
      if refused.Some? {
        return refused;
      }
      users := users[id := User(USER_ACTIVE, |users| == 0)];
      if Inv(d) {
        ApplyKeeps(d, DoRegister(id, refused));
      }
      return None;
    }

    method PatchUserStatus(actor: Id, user: Id, status: Option<int>, superAdmin: Option<bool>)
      returns (error: Option<Error>)
      modifies this
      ensures Becomes(old(State()), PatchUser(old(State()), actor, user, status, superAdmin), error)
    {
      ghost var d := State();
      if !IsSuperAdmin(State(), actor) {
        return Some(PermissionDenied);
      }
      if user !in users {
        return Some(NotFound);
      }
      var u := users[user];
      var proposed := u;
      if status.Some? {
        if status.value != USER_ACTIVE && status.value != USER_DISABLED {
          return Some(InvalidArgument);
        }
        proposed := proposed.(status := status.value);
      }
      if superAdmin.Some? {
        proposed := proposed.(superAdmin := superAdmin.value);
      }
      if u.status == USER_ACTIVE && u.superAdmin && (proposed.status != USER_ACTIVE || !proposed.superAdmin) {
        var other := HasOtherActiveSuperAdmin(user);
        if !other {
          return Some(FailedPrecondition);
        }
      }
      if u.status == USER_ACTIVE && proposed.status != USER_ACTIVE {
        var last := IsLastAdminSomewhere(user);
        if last {
          return Some(FailedPrecondition);
        }
      }
      users := users[user := proposed];
      if Inv(d) {
        ApplyKeeps(d, DoPatchUser(actor, user, status, superAdmin));
      }
      return None;
    }

    method ArchiveUnusedTeam(actor: Id, team: Id) returns (error: Option<Error>)
      modifies this
      ensures Becomes(old(State()), ArchiveTeam(old(State()), actor, team), error)
    {
      ghost var d := State();
      if !IsSuperAdmin(State(), actor) {
        return Some(PermissionDenied);
      }
      if team !in teams {
        return Some(NotFound);
      }
      var todo := projects.Keys;
      while todo != {}
        invariant todo <= projects.Keys
        invariant forall p | p in projects.Keys - todo :: !(projects[p].team == team && projects[p].active)
        decreases todo
      {
        var p :| p in todo;
        if projects[p].team == team && projects[p].active {
          return Some(FailedPrecondition);
        }
        todo := todo - {p};
      }
      teams := teams - {team};
      if Inv(d) {
        ApplyKeeps(d, DoArchiveTeam(actor, team));
      }
      return None;
    }

    method CreateProjectWithAdmin(actor: Id, team: Id, admin: Option<Id>, id: Id, refused: Option<Error>)
      returns (error: Option<Error>)
      requires id !in projects
      modifies this
      ensures Becomes(old(State()), CreateProject(old(State()), actor, team, admin, id, refused), error)
    {
      ghost var d := State();
      if !IsSuperAdmin(State(), actor) {
        return Some(PermissionDenied);
      }
      if team !in teams {
        return Some(NotFound);
      }
      var a := actor;
      if admin.Some? {
        a := admin.value;
      }
      if a !in users {
        return Some(NotFound);
      }
      if users[a].status != USER_ACTIVE {
        return Some(FailedPrecondition);
      }
      if refused.Some? {
        return refused;
      }
      projects := projects[id := Project(team, true)];
      members := members[(id, a) := Member(ROLE_ADMIN, true)];
      if Inv(d) {
        ApplyKeeps(d, DoCreateProject(actor, team, admin, id, refused));
      }
      return None;
    }

    method ArchiveActiveProject(actor: Id, project: Id) returns (error: Option<Error>)
      modifies this
      ensures Becomes(old(State()), ArchiveProject(old(State()), actor, project), error)
    {
      ghost var d := State();
      if !CanManage(State(), actor, project) {
        return Some(PermissionDenied);
      }
      if project !in projects {
        return Some(NotFound);
      }
      if !projects[project].active {
        return Some(FailedPrecondition);
      }
      projects := projects[project := projects[project].(active := false)];
      if Inv(d) {
        ApplyKeeps(d, DoArchiveProject(actor, project));
      }
      return None;
    }

    method AddProjectMember(actor: Id, project: Id, user: Id, role: int) returns (error: Option<Error>)
      modifies this
      ensures Becomes(old(State()), AddMember(old(State()), actor, project, user, role), error)
    {
      ghost var d := State();
      if !CanManage(State(), actor, project) {
        return Some(PermissionDenied);
      }
      if project !in projects {
        return Some(NotFound);
      }
      if !projects[project].active {
        return Some(FailedPrecondition);
      }
      if user !in users {
        return Some(NotFound);
      }
      if role < ROLE_READER || role > ROLE_ADMIN {
        return Some(InvalidArgument);
      }
      if role == ROLE_ADMIN && users[user].status != USER_ACTIVE {
        return Some(FailedPrecondition);
      }
      if (project, user) in members && members[(project, user)].active {
        return Some(AlreadyExists);
      }
      members := members[(project, user) := Member(role, true)];
      if Inv(d) {
        ApplyKeeps(d, DoAddMember(actor, project, user, role));
      }
      return None;
    }

    method PatchProjectMemberRole(actor: Id, project: Id, user: Id, role: int) returns (error: Option<Error>)
      modifies this
      ensures Becomes(old(State()), PatchRole(old(State()), actor, project, user, role), error)
    {
      ghost var d := State();
      if !CanManage(State(), actor, project) {
        return Some(PermissionDenied);
      }
      if project !in projects {
        return Some(NotFound);
      }
      if !projects[project].active {
        return Some(FailedPrecondition);
      }
      if (project, user) !in members || !members[(project, user)].active {
        return Some(NotFound);
      }
      if role < ROLE_READER || role > ROLE_ADMIN {
        return Some(InvalidArgument);
      }
      if role == ROLE_ADMIN && !IsActive(State(), user) {
        return Some(FailedPrecondition);
      }
      if members[(project, user)].role == ROLE_ADMIN && role != ROLE_ADMIN {
        var other := HasOtherActiveProjectAdmin(project, user);
        if !other {
          return Some(FailedPrecondition);
        }
      }
      members := members[(project, user) := members[(project, user)].(role := role)];
      if Inv(d) {
        ApplyKeeps(d, DoPatchRole(actor, project, user, role));
      }
      return None;
    }

    method RemoveProjectMember(actor: Id, project: Id, user: Id) returns (error: Option<Error>)
      modifies this
      ensures Becomes(old(State()), RemoveMember(old(State()), actor, project, user), error)
    {
      ghost var d := State();
      if !CanManage(State(), actor, project) {
        return Some(PermissionDenied);
      }
      if project !in projects {
        return Some(NotFound);
      }
      if !projects[project].active {
        return Some(FailedPrecondition);
      }
      if (project, user) !in members || !members[(project, user)].active {
        return Some(NotFound);
      }
      if members[(project, user)].role == ROLE_ADMIN {
        var other := HasOtherActiveProjectAdmin(project, user);
        if !other {
          return Some(FailedPrecondition);
        }
      }
      members := members[(project, user) := members[(project, user)].(active := false)];
      if Inv(d) {
        ApplyKeeps(d, DoRemoveMember(actor, project, user));
      }
      return None;
    }
  }
}
