/** The request handlers of app.py as methods on one server object that
    holds the three tables and the session of one client. */
module App {
  import opened Wrappers
  import opened Passwords
  import opened Access
  import opened Tables

  /** What a guarded handler answers: the guard refused, the request failed
      with an unhandled database error, or the page was shown (`ok` is false
      when the action reported a duplicate email). */
  datatype Reply<P> = Denied | Failed | Shown(ok: bool, page: P)

  /** The engineer panel: the non-engineer users and the registered APIs. */
  datatype EngineerPage = EngineerPage(users: seq<UserView>, apis: seq<ApiRecord>)

  class Server {
    /** `hash_password`; SHA-256 is given from outside. */
    const hash: string -> string

    var usuarios: seq<User>
    var analisis: seq<Analysis>
    var apis: seq<ApiRecord>

    /** The next AUTOINCREMENT id of each table. */
    var nextUserId: int
    var nextAnalysisId: int
    var nextApiId: int

    var session: Session

    /** The constraints of the schema: unique emails, unique ids in each
        table, and every id at least 1 and below the table's next
        AUTOINCREMENT value, so the next insertion never reuses an id. */
    ghost predicate Valid()
      reads this
      ensures Valid() ==> !HasId(usuarios, nextUserId)
      ensures Valid() ==> forall i :: 0 <= i < |analisis| ==> analisis[i].id != nextAnalysisId
      ensures Valid() ==> forall i :: 0 <= i < |apis| ==> apis[i].id != nextApiId
    {
      && 1 <= nextUserId && 1 <= nextAnalysisId && 1 <= nextApiId
      && UniqueEmails(usuarios) && UniqueIds(usuarios)
      && UniqueKeys(analisis, AnalysisId) && UniqueKeys(apis, ApiId)
      && (forall i :: 0 <= i < |usuarios| ==> 1 <= usuarios[i].id < nextUserId)
      && (forall i :: 0 <= i < |analisis| ==> 1 <= analisis[i].id < nextAnalysisId)
      && (forall i :: 0 <= i < |apis| ==> 1 <= apis[i].id < nextApiId)
    }

    /** `init_db` on a fresh database, with an anonymous session. */
    constructor (hash: string -> string)
      ensures Valid()
      ensures this.hash == hash
      ensures usuarios == [] && analisis == [] && apis == [] && session == None
      ensures nextUserId == 1 && nextAnalysisId == 1 && nextApiId == 1
    {
      this.hash := hash;
      usuarios, analisis, apis := [], [], [];
      nextUserId, nextAnalysisId, nextApiId := 1, 1, 1;
      session := None;
    }

    // -------------------------------------------------------------------
    // Statements shared by several handlers
    // -------------------------------------------------------------------

    /** The insertion of a user with 2FA off, where a taken email raises the
        integrity error that the handlers catch. */
    method InsertRow(nombre: string, email: string, password: string, rol: string) returns (ok: bool)
      requires Valid()
      modifies this`usuarios, this`nextUserId
      ensures Valid()
      ensures ok == !EmailTaken(old(usuarios), email)
      ensures usuarios == if ok
        then old(usuarios) + [NewUser(old(nextUserId), nombre, email, hash(password), rol)]
        else old(usuarios)
      ensures nextUserId == if ok then old(nextUserId) + 1 else old(nextUserId)
    {
      var u := NewUser(nextUserId, nombre, email, hash(password), rol);
      assert !HasId(usuarios, u.id);
      InsertKeepsUnique(usuarios, u);
      match InsertUser(usuarios, u)
      case None =>
        ok := false;
      case Some(t) =>
        usuarios, nextUserId := t, nextUserId + 1;
        ok := true;
    }

    /** The deletion of the user with that id. */
    method DeleteRow(id: int)
      requires Valid()
      modifies this`usuarios
      ensures Valid()
      ensures usuarios == DeleteById(old(usuarios), id)
    {
      DeleteFacts(usuarios, id);
      var r := DeleteById(usuarios, id);
      forall i | 0 <= i < |r| ensures 1 <= r[i].id < nextUserId {
        assert r[i] in r;
        var k :| 0 <= k < |usuarios| && usuarios[k] == r[i];
      }
      usuarios := r;
    }

    /** The edit of the user with that id; an email held by another row
        fails the statement and changes nothing. */
    method EditRowById(id: int, nombre: string, email: string, rol: string, twofa: bool) returns (ok: bool)
      requires Valid()
      modifies this`usuarios
      ensures Valid()
      ensures ok == !EditConflicts(old(usuarios), id, email)
      ensures usuarios == if ok then Edit(old(usuarios), id, nombre, email, rol, twofa) else old(usuarios)
    {
      ok := !EditConflicts(usuarios, id, email);
      if ok {
        EditFacts(usuarios, id, nombre, email, rol, twofa);
        usuarios := Edit(usuarios, id, nombre, email, rol, twofa);
      }
    }

    // -------------------------------------------------------------------
    // Session
    // -------------------------------------------------------------------

    /** `register`: a new account always has role "user" and 2FA off. */
    method Register(nombre: string, email: string, password: string) returns (ok: bool)
      requires Valid()
      modifies this`usuarios, this`nextUserId
      ensures Valid()
      ensures ok == !EmailTaken(old(usuarios), email)
      ensures usuarios == if ok
        then old(usuarios) + [NewUser(old(nextUserId), nombre, email, hash(password), USER)]
        else old(usuarios)
      ensures nextUserId == if ok then old(nextUserId) + 1 else old(nextUserId)
    {
      ok := InsertRow(nombre, email, password, USER);
    }

    /** `login`: on success the session holds the user's id and role and the
        reply names the landing view; on failure the session is unchanged. */
    method Login(email: string, password: string) returns (landing: Option<Landing>)
      requires Valid()
      modifies this`session
      ensures Valid()
      ensures landing.Some? <==>
        exists i :: 0 <= i < |usuarios| && usuarios[i].email == email && usuarios[i].hash == hash(password)
      ensures landing.None? ==> session == old(session)
      ensures landing.Some? ==>
        exists u :: (u in usuarios && u.email == email && u.hash == hash(password)
          && session == Some(Identity(u.id, u.rol)) && landing == Some(LandingFor(u.rol)))
    {
      AuthenticateIff(usuarios, hash, email, password);
      var found := Authenticate(usuarios, hash, email, password);
      if found.None? {
        landing := None;
      } else {
        var u := found.value;
        session := Some(Identity(u.id, u.rol));
        landing := Some(LandingFor(u.rol));
        assert exists i :: 0 <= i < |usuarios| && usuarios[i].email == email && usuarios[i].hash == hash(password);
      }
    }

    /** `logout`: the session ends anonymous; the guard refuses an
        anonymous caller. */
    method Logout() returns (allowed: bool)
      requires Valid()
      modifies this`session
      ensures Valid()
      ensures allowed == LoginRequired(old(session))
      ensures session == None
    {
      allowed := LoginRequired(session);
      session := None;
    }

    // -------------------------------------------------------------------
    // Analysis
    // -------------------------------------------------------------------

    /** `analyze`: store the 2FA choice on the caller's row, then log the
        masked password and its verdict. */
    method Analyze(password: string, twofa: bool, fecha: string) returns (verdict: Option<Verdict>)
      requires Valid()
      modifies this`usuarios, this`analisis, this`nextAnalysisId
      ensures Valid()
      ensures !LoginRequired(session) ==>
        && verdict == None && usuarios == old(usuarios) && analisis == old(analisis)
        && nextAnalysisId == old(nextAnalysisId)
      ensures LoginRequired(session) ==>
        && verdict == Some(AnalyzePassword(password, twofa))
        && usuarios == SetTwofaById(old(usuarios), session.value.userId, twofa)
        && analisis == old(analisis) + [NewAnalysis(old(nextAnalysisId), session.value.userId, password, twofa, fecha)]
        && nextAnalysisId == old(nextAnalysisId) + 1
      ensures LoginRequired(session) ==>
        && ResultsOf(analisis, session.value.userId) ==
           ResultsOf(old(analisis), session.value.userId) +
           [ResultRow(Mask(password), Label(AnalyzePassword(password, twofa)), fecha)]
        && forall uid :: uid != session.value.userId ==> ResultsOf(analisis, uid) == ResultsOf(old(analisis), uid)
    {
      if !LoginRequired(session) {
        return None;
      }
      var uid := session.value.userId;
      var users := SetTwofaById(usuarios, uid, twofa);
      SetTwofaKeepsUnique(usuarios, uid, twofa);
      var v := AnalyzePassword(password, twofa);
      var a := NewAnalysis(nextAnalysisId, uid, password, twofa, fecha);
      AppendFreshKey(analisis, a, AnalysisId);
      forall u
        ensures ResultsOf(analisis + [a], u) == ResultsOf(analisis, u) + (if a.userId == u then [Row(a)] else [])
      {
        ResultsAppend(analisis, a, u);
      }
      usuarios, analisis, nextAnalysisId := users, analisis + [a], nextAnalysisId + 1;
      assert Valid();
      verdict := Some(v);
    }

    /** `results`: the caller's own analyses. */
    method Results() returns (rows: Option<seq<ResultRow>>)
      ensures rows.None? <==> !LoginRequired(session)
      ensures rows.Some? ==> rows.value == ResultsOf(analisis, session.value.userId)
    {
      if !LoginRequired(session) {
        return None;
      }
      rows := Some(ResultsOf(analisis, session.value.userId));
    }

    // -------------------------------------------------------------------
    // Admin panel (admins and engineers)
    // -------------------------------------------------------------------

    /** The admin panel as shown after any action. */
    method AdminView() returns (reply: Reply<seq<UserView>>)
      ensures reply == if AdminRequired(session) then Shown(true, ListNonEngineers(usuarios)) else Denied
    {
      if !AdminRequired(session) {
        return Denied;
      }
      reply := Shown(true, ListNonEngineers(usuarios));
    }

    /** Action "add": the requested role, "user" when absent, goes through
        the admin rewrite. */
    method AdminAdd(nombre: string, email: string, password: string, rol: Option<string>)
      returns (reply: Reply<seq<UserView>>)
      requires Valid()
      modifies this`usuarios, this`nextUserId
      ensures Valid()
      ensures !AdminRequired(session) ==>
        reply == Denied && usuarios == old(usuarios) && nextUserId == old(nextUserId)
      ensures AdminRequired(session) ==>
        nextUserId == if reply.Shown? && reply.ok then old(nextUserId) + 1 else old(nextUserId)
      ensures AdminRequired(session) ==>
        var stored := AssignedRole(session.value.role, rol.GetOr(USER));
        && reply == Shown(!EmailTaken(old(usuarios), email), ListNonEngineers(usuarios))
        && usuarios == if EmailTaken(old(usuarios), email) then old(usuarios)
           else old(usuarios) + [NewUser(old(nextUserId), nombre, email, hash(password), stored)]
    {
      if !AdminRequired(session) {
        return Denied;
      }
      var stored := AssignedRole(session.value.role, rol.GetOr(USER));
      var ok := InsertRow(nombre, email, password, stored);
      reply := Shown(ok, ListNonEngineers(usuarios));
    }

    /** Action "delete": removes the row with that id, whatever its role;
        the user's analyses stay in the log. */
    method AdminDelete(id: int) returns (reply: Reply<seq<UserView>>)
      requires Valid()
      modifies this`usuarios
      ensures Valid()
      ensures analisis == old(analisis)
      ensures !AdminRequired(session) ==> reply == Denied && usuarios == old(usuarios)
      ensures AdminRequired(session) ==>
        usuarios == DeleteById(old(usuarios), id) && reply == Shown(true, ListNonEngineers(usuarios))
    {
      if !AdminRequired(session) {
        return Denied;
      }
      DeleteRow(id);
      reply := Shown(true, ListNonEngineers(usuarios));
    }

    /** Action "edit": rewrites name, email, role (through the admin
        rewrite) and 2FA of the row with that id, whatever its role. */
    method AdminEdit(id: int, nombre: string, email: string, rol: string, twofa: bool)
      returns (reply: Reply<seq<UserView>>)
      requires Valid()
      modifies this`usuarios
      ensures Valid()
      ensures !AdminRequired(session) ==> reply == Denied && usuarios == old(usuarios)
      ensures AdminRequired(session) && EditConflicts(old(usuarios), id, email) ==>
        reply == Failed && usuarios == old(usuarios)
      ensures AdminRequired(session) && !EditConflicts(old(usuarios), id, email) ==>
        && usuarios == Edit(old(usuarios), id, nombre, email, AssignedRole(session.value.role, rol), twofa)
        && reply == Shown(true, ListNonEngineers(usuarios))
    {
      if !AdminRequired(session) {
        return Denied;
      }
      var stored := AssignedRole(session.value.role, rol);
      var ok := EditRowById(id, nombre, email, stored, twofa);
      if !ok {
        return Failed;
      }
      reply := Shown(true, ListNonEngineers(usuarios));
    }

    // -------------------------------------------------------------------
    // Engineer panel (engineers only)
    // -------------------------------------------------------------------

    method EngineerView() returns (reply: Reply<EngineerPage>)
      ensures reply == if EngineerRequired(session)
        then Shown(true, EngineerPage(ListNonEngineers(usuarios), apis)) else Denied
    {
      if !EngineerRequired(session) {
        return Denied;
      }
      reply := Shown(true, EngineerPage(ListNonEngineers(usuarios), apis));
    }

    /** Actions "add_user" and "add_admin": the role comes from the action. */
    method EngineerAdd(kind: AddKind, nombre: string, email: string, password: string)
      returns (reply: Reply<EngineerPage>)
      requires Valid()
      modifies this`usuarios, this`nextUserId
      ensures Valid()
      ensures !EngineerRequired(session) ==>
        reply == Denied && usuarios == old(usuarios) && nextUserId == old(nextUserId)
      ensures EngineerRequired(session) ==>
        nextUserId == if reply.Shown? && reply.ok then old(nextUserId) + 1 else old(nextUserId)
      ensures EngineerRequired(session) ==>
        && reply == Shown(!EmailTaken(old(usuarios), email), EngineerPage(ListNonEngineers(usuarios), apis))
        && usuarios == if EmailTaken(old(usuarios), email) then old(usuarios)
           else old(usuarios) + [NewUser(old(nextUserId), nombre, email, hash(password), EngineerAddRole(kind))]
    {
      if !EngineerRequired(session) {
        return Denied;
      }
      var ok := InsertRow(nombre, email, password, EngineerAddRole(kind));
      reply := Shown(ok, EngineerPage(ListNonEngineers(usuarios), apis));
    }

    /** Action "delete", as in the admin panel. */
    method EngineerDelete(id: int) returns (reply: Reply<EngineerPage>)
      requires Valid()
      modifies this`usuarios
      ensures Valid()
      ensures analisis == old(analisis)
      ensures !EngineerRequired(session) ==> reply == Denied && usuarios == old(usuarios)
      ensures EngineerRequired(session) ==>
        && usuarios == DeleteById(old(usuarios), id)
        && reply == Shown(true, EngineerPage(ListNonEngineers(usuarios), apis))
    {
      if !EngineerRequired(session) {
        return Denied;
      }
      DeleteRow(id);
      reply := Shown(true, EngineerPage(ListNonEngineers(usuarios), apis));
    }

    /** Action "edit": the requested role is stored as given. */
    method EngineerEdit(id: int, nombre: string, email: string, rol: string, twofa: bool)
      returns (reply: Reply<EngineerPage>)
      requires Valid()
      modifies this`usuarios
      ensures Valid()
      ensures !EngineerRequired(session) ==> reply == Denied && usuarios == old(usuarios)
      ensures EngineerRequired(session) && EditConflicts(old(usuarios), id, email) ==>
        reply == Failed && usuarios == old(usuarios)
      ensures EngineerRequired(session) && !EditConflicts(old(usuarios), id, email) ==>
        && usuarios == Edit(old(usuarios), id, nombre, email, rol, twofa)
        && reply == Shown(true, EngineerPage(ListNonEngineers(usuarios), apis))
    {
      if !EngineerRequired(session) {
        return Denied;
      }
      var ok := EditRowById(id, nombre, email, rol, twofa);
      if !ok {
        return Failed;
      }
      reply := Shown(true, EngineerPage(ListNonEngineers(usuarios), apis));
    }

    /** Action "add_api": records the name with its simulated status. */
    method EngineerAddApi(nombreApi: string, fecha: string) returns (reply: Reply<EngineerPage>)
      requires Valid()
      modifies this`apis, this`nextApiId
      ensures Valid()
      ensures !EngineerRequired(session) ==> reply == Denied && apis == old(apis) && nextApiId == old(nextApiId)
      ensures EngineerRequired(session) ==>
        && apis == old(apis) + [ApiRecord(old(nextApiId), nombreApi, SimulateApiConnection(nombreApi), fecha)]
        && nextApiId == old(nextApiId) + 1
        && reply == Shown(true, EngineerPage(ListNonEngineers(usuarios), apis))
    {
      if !EngineerRequired(session) {
        return Denied;
      }
      var estado := SimulateApiConnection(nombreApi);
      var r := ApiRecord(nextApiId, nombreApi, estado, fecha);
      AppendFreshKey(apis, r, ApiId);
      apis := apis + [r];
      nextApiId := nextApiId + 1;
      reply := Shown(true, EngineerPage(ListNonEngineers(usuarios), apis));
    }
  }

  /** A client of the handlers: a second registration with the same email
      is refused and leaves one row with that email; a login with the wrong
      password establishes no session, so the protected results page stays
      closed. */
  method DuplicateEmailAndWrongPassword(hash: string -> string)
    returns (second: bool, landing: Option<Landing>, rows: Option<seq<ResultRow>>)
    requires hash("clave-buena") != hash("clave-mala")
    ensures !second && landing == None && rows == None
  {
    var server := new Server(hash);
    var first := server.Register("Ana", "ana@demo.com", "clave-buena");
    ghost var ana := server.usuarios[0];
    assert first && server.usuarios == [ana];
    assert ana.email == "ana@demo.com" && ana.hash == hash("clave-buena");
    assert EmailTaken(server.usuarios, "ana@demo.com");
    second := server.Register("Otra", "ana@demo.com", "otra-clave");
    assert server.usuarios == [ana] && server.session == None;
    landing := server.Login("ana@demo.com", "clave-mala");
    assert server.session == None;
    rows := server.Results();
  }
}
