/** Session identity, the three access guards and the role policy of
    app.py's handlers. Roles are the strings the handlers store; the
    application uses "user", "admin" and "engineer", but a form can submit
    any string and it is stored as given. */
module Access {
  import opened Wrappers

  const USER: string := "user"
  const ADMIN: string := "admin"
  const ENGINEER: string := "engineer"

  /** What an authenticated session holds: the user's id and role. */
  datatype Identity = Identity(userId: int, role: string)

  /** None is the anonymous session (no user id stored). */
  type Session = Option<Identity>

  /** `login_required`: some user is logged in. */
  predicate LoginRequired(s: Session) {
    s.Some?
  }

  /** `admin_required`: logged in with role admin or engineer. */
  predicate AdminRequired(s: Session) {
    s.Some? && s.value.role in [ADMIN, ENGINEER]
  }

  /** `engineer_required`: logged in with role engineer. */
  predicate EngineerRequired(s: Session) {
    s.Some? && s.value.role == ENGINEER
  }

  /** The tiers nest: every engineer passes the admin guard and every admin
      passes the login guard; the anonymous session passes none, and a
      plain user passes only the login guard. */
  lemma GuardsNest(s: Session)
    ensures EngineerRequired(s) ==> AdminRequired(s)
    ensures AdminRequired(s) ==> LoginRequired(s)
    ensures s.None? ==> !LoginRequired(s) && !AdminRequired(s) && !EngineerRequired(s)
    ensures s.Some? && s.value.role == USER ==>
      LoginRequired(s) && !AdminRequired(s) && !EngineerRequired(s)
  {
  }

  /** The role stored by the admin panel's add and edit actions: unless the
      actor is an engineer, a requested "admin" becomes "user"; every other
      request, and every request of an engineer, is stored as given. */
  function AssignedRole(actorRole: string, requested: string): (rol: string)
    ensures rol == ADMIN ==> actorRole == ENGINEER
    ensures actorRole == ENGINEER ==> rol == requested
    ensures requested != ADMIN ==> rol == requested
    ensures actorRole != ENGINEER && requested == ADMIN ==> rol == USER
  {
    if actorRole != ENGINEER && requested == ADMIN then USER else requested
  }

  /** Applying the policy a second time changes nothing. */
  lemma AssignedRoleIdempotent(actorRole: string, requested: string)
    ensures AssignedRole(actorRole, AssignedRole(actorRole, requested)) == AssignedRole(actorRole, requested)
  {
  }

  /** As written, the policy lets a non-engineer actor store the role
      "engineer": only "admin" is rewritten. */
  lemma AdminMayGrantEngineer()
    ensures AssignedRole(ADMIN, ENGINEER) == ENGINEER
    ensures AssignedRole(ADMIN, ADMIN) == USER
    ensures AssignedRole(ENGINEER, ADMIN) == ADMIN
  {
  }

  /** The two add actions of the engineer panel. */
  datatype AddKind = AddUser | AddAdmin

  /** The role the engineer's two add actions store: "user" for the
      add-user action, "admin" otherwise. */
  function EngineerAddRole(kind: AddKind): (rol: string)
    ensures rol == ADMIN <==> kind == AddAdmin
    ensures rol == USER <==> kind == AddUser
  {
    match kind
    case AddUser => USER
    case AddAdmin => ADMIN
  }

  /** Where a successful login lands. */
  datatype Landing = EngineerPanel | AdminPanel | AnalyzeView

  /** Engineers land on the engineer panel, admins on the admin panel, any
      other role on the analysis form. */
  function LandingFor(role: string): (l: Landing)
    ensures l == EngineerPanel <==> role == ENGINEER
    ensures l == AdminPanel <==> role == ADMIN
  {
    if role == ENGINEER then EngineerPanel
    else if role == ADMIN then AdminPanel
    else AnalyzeView
  }
}
