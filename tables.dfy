/** The rows of the usuarios, analisis and apis tables and the effect of
    each SQL statement the handlers of app.py run, as functions on the
    table contents. */
module Tables {
  import opened Wrappers
  import opened Passwords
  import opened Access

  /** A row of `usuarios`. */
  datatype User = User(id: int, nombre: string, email: string, hash: string, rol: string, twofa: bool)

  /** A row of the user listing: every column except the password hash. */
  datatype UserView = UserView(id: int, nombre: string, email: string, rol: string, twofa: bool)

  /** A row of `analisis`. */
  datatype Analysis = Analysis(id: int, userId: int, masked: string, resultado: string, fecha: string)

  /** A row of the results page: the mask, the verdict and the date. */
  datatype ResultRow = ResultRow(masked: string, resultado: string, fecha: string)

  /** A row of `apis`. */
  datatype ApiRecord = ApiRecord(id: int, nombreApi: string, estado: string, fecha: string)

  // ---------------------------------------------------------------------
  // Table invariants
  // ---------------------------------------------------------------------

  /** No two rows share a key (the UNIQUE and PRIMARY KEY constraints). */
  ghost predicate UniqueKeys<T, K>(s: seq<T>, key: T -> K) {
    forall i, j :: 0 <= i < |s| && 0 <= j < |s| && key(s[i]) == key(s[j]) ==> i == j
  }

  function EmailOf(u: User): string { u.email }
  function IdOf(u: User): int { u.id }

  ghost predicate UniqueEmails(users: seq<User>) { UniqueKeys(users, EmailOf) }
  ghost predicate UniqueIds(users: seq<User>) { UniqueKeys(users, IdOf) }

  predicate EmailTaken(users: seq<User>, email: string) {
    exists i :: 0 <= i < |users| && users[i].email == email
  }

  predicate HasId(users: seq<User>, id: int) {
    exists i :: 0 <= i < |users| && users[i].id == id
  }

  function AnalysisId(a: Analysis): int { a.id }
  function ApiId(r: ApiRecord): int { r.id }

  /** Appending a row whose key no row has keeps the keys unique. */
  lemma AppendFreshKey<T, K>(s: seq<T>, x: T, key: T -> K)
    requires UniqueKeys(s, key)
    requires forall i :: 0 <= i < |s| ==> key(s[i]) != key(x)
    ensures UniqueKeys(s + [x], key)
  {
    var r := s + [x];
    assert forall i :: 0 <= i < |s| ==> r[i] == s[i];
    assert r[|s|] == x;
  }

  // ---------------------------------------------------------------------
  // Selecting and filtering
  // ---------------------------------------------------------------------

  /** The rows that satisfy a WHERE condition, in table order. */
  function Filter<T(!new)>(s: seq<T>, keep: T -> bool): (r: seq<T>)
    ensures |r| <= |s|
    ensures forall x :: x in r <==> x in s && keep(x)
  {
    if s == [] then []
    else
      var rest := Filter(s[1..], keep);
      assert forall x :: x in s <==> x == s[0] || x in s[1..];
      if keep(s[0]) then [s[0]] + rest else rest
  }

  /** Selection keeps each kept value as many times as the table holds it
      and drops every other value, so no row is lost or duplicated. */
  lemma {:induction false} FilterMultiset<T(!new)>(s: seq<T>, keep: T -> bool)
    ensures forall x :: multiset(Filter(s, keep))[x] == if keep(x) then multiset(s)[x] else 0
  {
    if s != [] {
      FilterMultiset(s[1..], keep);
      assert s == [s[0]] + s[1..];
      assert multiset(s) == multiset([s[0]]) + multiset(s[1..]);
    }
  }

  /** Selecting from a table with one more row at the end selects the same
      rows, then that row if it meets the condition. */
  lemma {:induction false} FilterAppend<T(!new)>(s: seq<T>, x: T, keep: T -> bool)
    ensures Filter(s + [x], keep) == Filter(s, keep) + (if keep(x) then [x] else [])
  {
    if s == [] {
      assert [] + [x] == [x];
      assert [x][1..] == [];
    } else {
      assert (s + [x])[0] == s[0];
      assert (s + [x])[1..] == s[1..] + [x];
      FilterAppend(s[1..], x, keep);
    }
  }

  /** A condition every row meets keeps the whole table. */
  lemma {:induction false} FilterKeepsAll<T(!new)>(s: seq<T>, keep: T -> bool)
    requires forall i :: 0 <= i < |s| ==> keep(s[i])
    ensures Filter(s, keep) == s
  {
    if s != [] {
      FilterKeepsAll(s[1..], keep);
      assert [s[0]] + s[1..] == s;
    }
  }

  /** Filtering never introduces two rows with one key. */
  lemma {:induction false} FilterKeepsUnique<T(!new), K>(s: seq<T>, keep: T -> bool, key: T -> K)
    requires UniqueKeys(s, key)
    ensures UniqueKeys(Filter(s, keep), key)
  {
    if s != [] {
      var t := s[1..];
      assert forall i :: 0 <= i < |t| ==> t[i] == s[i + 1];
      assert UniqueKeys(t, key) by {
        forall i, j | 0 <= i < |t| && 0 <= j < |t| && key(t[i]) == key(t[j])
          ensures i == j
        {
          assert key(s[i + 1]) == key(s[j + 1]);
        }
      }
      FilterKeepsUnique(t, keep, key);
      var rest := Filter(t, keep);
      if keep(s[0]) {
        var r := [s[0]] + rest;
        forall x | x in rest ensures key(x) != key(s[0]) {
          var k :| 0 <= k < |t| && t[k] == x;
          assert s[k + 1] == x;
        }
        forall i | 0 < i < |r| ensures r[i] == rest[i - 1] && key(r[i]) != key(r[0]) {
          assert r[i] in rest;
        }
        forall i, j | 0 <= i < |r| && 0 <= j < |r| && key(r[i]) == key(r[j])
          ensures i == j
        {
          if i > 0 && j > 0 {
            assert key(rest[i - 1]) == key(rest[j - 1]);
          }
        }
      }
    }
  }

  /** The login query: the first row with that email, if any. */
  function FindByEmail(users: seq<User>, email: string): (r: Option<User>)
    ensures r.Some? ==> r.value in users && r.value.email == email
    ensures r.None? <==> !EmailTaken(users, email)
  {
    if users == [] then None
    else if users[0].email == email then Some(users[0])
    else
      var rest := FindByEmail(users[1..], email);
      assert forall i :: 1 <= i < |users| ==> users[i] == users[1..][i - 1];
      rest
  }

  /** The login check: the row with that email, if its stored hash is the
      hash of the supplied password. */
  function Authenticate(users: seq<User>, hash: string -> string, email: string, password: string): (r: Option<User>)
    ensures r.Some? ==> r.value in users && r.value.email == email && r.value.hash == hash(password)
  {
    match FindByEmail(users, email)
    case None => None
    case Some(u) => if CheckPassword(hash, u.hash, password) then Some(u) else None
  }

  /** With unique emails, login succeeds exactly when some row has that
      email and the hash of the supplied password. */
  lemma AuthenticateIff(users: seq<User>, hash: string -> string, email: string, password: string)
    requires UniqueEmails(users)
    ensures Authenticate(users, hash, email, password).Some? <==>
      exists i :: 0 <= i < |users| && users[i].email == email && users[i].hash == hash(password)
  {
    var f := FindByEmail(users, email);
    if i :| 0 <= i < |users| && users[i].email == email && users[i].hash == hash(password) {
      var k :| 0 <= k < |users| && users[k] == f.value;
      assert EmailOf(users[k]) == EmailOf(users[i]);
    }
  }

  /** A wrong password never logs in, whatever the table holds. */
  lemma WrongPasswordFails(users: seq<User>, hash: string -> string, email: string, password: string)
    requires forall i :: 0 <= i < |users| && users[i].email == email ==> users[i].hash != hash(password)
    ensures Authenticate(users, hash, email, password) == None
  {
  }

  // ---------------------------------------------------------------------
  // INSERT, DELETE and UPDATE on usuarios
  // ---------------------------------------------------------------------

  /** The row an INSERT adds: a new user always starts with 2FA off. */
  function NewUser(id: int, nombre: string, email: string, hash: string, rol: string): (u: User)
    ensures u.id == id && u.nombre == nombre && u.email == email && u.hash == hash && u.rol == rol
    ensures !u.twofa
  {
    User(id, nombre, email, hash, rol, false)
  }

  /** Inserting a user: fails on a taken email, and otherwise appends
      exactly one row. */
  function InsertUser(users: seq<User>, u: User): (r: Option<seq<User>>)
    ensures r.None? <==> EmailTaken(users, u.email)
    ensures r.Some? ==> r.value == users + [u]
  {
    if EmailTaken(users, u.email) then None else Some(users + [u])
  }

  /** Inserting can never produce a second row with one email, and keeps
      ids unique when the new id is one no row has. */
  lemma InsertKeepsUnique(users: seq<User>, u: User)
    requires UniqueEmails(users) && UniqueIds(users)
    requires !HasId(users, u.id)
    ensures InsertUser(users, u).Some? ==>
      UniqueEmails(InsertUser(users, u).value) && UniqueIds(InsertUser(users, u).value)
    ensures InsertUser(users, u).None? ==>
      |Filter(users, (v: User) => v.email == u.email)| == 1
  {
    var r := users + [u];
    if !EmailTaken(users, u.email) {
      assert forall i :: 0 <= i < |users| ==> r[i] == users[i];
      assert UniqueEmails(r) by {
        forall i, j | 0 <= i < |r| && 0 <= j < |r| && EmailOf(r[i]) == EmailOf(r[j]) ensures i == j {}
      }
      assert UniqueIds(r) by {
        forall i, j | 0 <= i < |r| && 0 <= j < |r| && IdOf(r[i]) == IdOf(r[j]) ensures i == j {}
      }
    } else {
      OnlyOneWithEmail(users, u.email);
    }
  }

  /** With unique emails a taken email names exactly one row. */
  lemma {:induction false} OnlyOneWithEmail(users: seq<User>, email: string)
    requires UniqueEmails(users)
    requires EmailTaken(users, email)
    ensures |Filter(users, (v: User) => v.email == email)| == 1
  {
    var t := users[1..];
    assert forall i :: 0 <= i < |t| ==> t[i] == users[i + 1];
    assert UniqueEmails(t) by {
      forall i, j | 0 <= i < |t| && 0 <= j < |t| && EmailOf(t[i]) == EmailOf(t[j]) ensures i == j {
        assert EmailOf(users[i + 1]) == EmailOf(users[j + 1]);
      }
    }
    if users[0].email == email {
      assert !EmailTaken(t, email) by {
        forall i | 0 <= i < |t| ensures t[i].email != email {
          assert EmailOf(users[i + 1]) != EmailOf(users[0]);
        }
      }
      NoneWithEmail(t, email);
    } else {
      var k :| 0 <= k < |users| && users[k].email == email;
      assert t[k - 1].email == email;
      OnlyOneWithEmail(t, email);
    }
  }

  lemma {:induction false} NoneWithEmail(users: seq<User>, email: string)
    requires !EmailTaken(users, email)
    ensures Filter(users, (v: User) => v.email == email) == []
  {
    if users != [] {
      var t := users[1..];
      assert forall i :: 0 <= i < |t| ==> t[i] == users[i + 1];
      NoneWithEmail(t, email);
    }
  }

  /** Deleting a user by id. */
  function DeleteById(users: seq<User>, id: int): (r: seq<User>)
    ensures forall u :: u in r <==> u in users && u.id != id
  {
    Filter(users, (u: User) => u.id != id)
  }

  /** Deleting an id no row has leaves the table as it was; deletion keeps
      both keys unique. */
  lemma DeleteFacts(users: seq<User>, id: int)
    ensures !HasId(users, id) ==> DeleteById(users, id) == users
    ensures UniqueEmails(users) ==> UniqueEmails(DeleteById(users, id))
    ensures UniqueIds(users) ==> UniqueIds(DeleteById(users, id))
    ensures !HasId(DeleteById(users, id), id)
  {
    var keep := (u: User) => u.id != id;
    if !HasId(users, id) {
      FilterKeepsAll(users, keep);
    }
    if UniqueEmails(users) {
      FilterKeepsUnique(users, keep, EmailOf);
    }
    if UniqueIds(users) {
      FilterKeepsUnique(users, keep, IdOf);
    }
  }

  /** An update by id: the rows with that id are rewritten by
      `change`, all others are kept, in the same order. */
  function UpdateById(users: seq<User>, id: int, change: User -> User): (r: seq<User>)
    ensures |r| == |users|
    ensures forall i :: 0 <= i < |users| ==>
      r[i] == if users[i].id == id then change(users[i]) else users[i]
  {
    if users == [] then []
    else
      var rest := UpdateById(users[1..], id, change);
      [if users[0].id == id then change(users[0]) else users[0]] + rest
  }

  /** The edit of one row: name, email, role and 2FA are replaced; the id
      and the password hash are kept. */
  function EditRow(u: User, nombre: string, email: string, rol: string, twofa: bool): (e: User)
    ensures e.id == u.id && e.hash == u.hash
    ensures e.nombre == nombre && e.email == email && e.rol == rol && e.twofa == twofa
  {
    u.(nombre := nombre, email := email, rol := rol, twofa := twofa)
  }

  /** The 2FA update of one row: only the flag changes. */
  function SetTwofa(u: User, twofa: bool): (e: User)
    ensures e == EditRow(u, u.nombre, u.email, u.rol, twofa)
  {
    u.(twofa := twofa)
  }

  /** The edit violates the UNIQUE constraint on email: a row with the id
      exists and another row already has the new email. */
  predicate EditConflicts(users: seq<User>, id: int, email: string) {
    HasId(users, id) && exists j :: 0 <= j < |users| && users[j].id != id && users[j].email == email
  }

  /** The edit action's update by id. */
  function Edit(users: seq<User>, id: int, nombre: string, email: string, rol: string, twofa: bool): (r: seq<User>)
    ensures |r| == |users|
    ensures forall i :: 0 <= i < |users| ==>
      r[i] == if users[i].id == id then EditRow(users[i], nombre, email, rol, twofa) else users[i]
  {
    UpdateById(users, id, (u: User) => EditRow(u, nombre, email, rol, twofa))
  }

  /** An edit that does not conflict keeps both keys unique, and changes
      nothing but the four columns of the row with that id. */
  lemma EditFacts(users: seq<User>, id: int, nombre: string, email: string, rol: string, twofa: bool)
    requires UniqueEmails(users) && UniqueIds(users)
    requires !EditConflicts(users, id, email)
    ensures UniqueEmails(Edit(users, id, nombre, email, rol, twofa))
    ensures UniqueIds(Edit(users, id, nombre, email, rol, twofa))
    ensures forall i :: 0 <= i < |users| ==>
      Edit(users, id, nombre, email, rol, twofa)[i].id == users[i].id &&
      Edit(users, id, nombre, email, rol, twofa)[i].hash == users[i].hash
  {
    var r := Edit(users, id, nombre, email, rol, twofa);
    forall i, j | 0 <= i < |r| && 0 <= j < |r| && EmailOf(r[i]) == EmailOf(r[j])
      ensures i == j
    {
      if users[i].id == id && users[j].id != id {
        assert HasId(users, id);
      } else if users[i].id != id && users[j].id == id {
        assert HasId(users, id);
      } else if users[i].id == id && users[j].id == id {
        assert IdOf(users[i]) == IdOf(users[j]);
      } else {
        assert EmailOf(users[i]) == EmailOf(users[j]);
      }
    }
    forall i, j | 0 <= i < |r| && 0 <= j < |r| && IdOf(r[i]) == IdOf(r[j])
      ensures i == j
    {
      assert IdOf(users[i]) == IdOf(users[j]);
    }
  }

  /** The conflict predicate is exactly the UNIQUE violation: with a row of
      that id present, the edit conflicts iff its result would hold one
      email twice. */
  lemma EditConflictsIff(users: seq<User>, id: int, nombre: string, email: string, rol: string, twofa: bool)
    requires UniqueEmails(users) && UniqueIds(users)
    ensures EditConflicts(users, id, email) <==>
      HasId(users, id) && !UniqueEmails(Edit(users, id, nombre, email, rol, twofa))
  {
    var r := Edit(users, id, nombre, email, rol, twofa);
    if EditConflicts(users, id, email) {
      var k :| 0 <= k < |users| && users[k].id == id;
      var j :| 0 <= j < |users| && users[j].id != id && users[j].email == email;
      assert EmailOf(r[k]) == EmailOf(r[j]) && k != j;
    } else {
      EditFacts(users, id, nombre, email, rol, twofa);
    }
  }

  /** The analysis form's update by id of the 2FA flag. */
  function SetTwofaById(users: seq<User>, id: int, twofa: bool): (r: seq<User>)
    ensures |r| == |users|
    ensures forall i :: 0 <= i < |users| ==>
      r[i] == if users[i].id == id then users[i].(twofa := twofa) else users[i]
  {
    UpdateById(users, id, (u: User) => SetTwofa(u, twofa))
  }

  /** Setting the 2FA flag keeps both keys unique. */
  lemma SetTwofaKeepsUnique(users: seq<User>, id: int, twofa: bool)
    requires UniqueEmails(users) && UniqueIds(users)
    ensures UniqueEmails(SetTwofaById(users, id, twofa))
    ensures UniqueIds(SetTwofaById(users, id, twofa))
  {
    var r := SetTwofaById(users, id, twofa);
    forall i, j | 0 <= i < |r| && 0 <= j < |r| && EmailOf(r[i]) == EmailOf(r[j])
      ensures i == j
    {
      assert EmailOf(users[i]) == EmailOf(users[j]);
    }
    forall i, j | 0 <= i < |r| && 0 <= j < |r| && IdOf(r[i]) == IdOf(r[j])
      ensures i == j
    {
      assert IdOf(users[i]) == IdOf(users[j]);
    }
  }

  // ---------------------------------------------------------------------
  // Listings
  // ---------------------------------------------------------------------

  /** The same function applied to every row, in table order. */
  function Project<T, U>(s: seq<T>, f: T -> U): (r: seq<U>)
    ensures |r| == |s|
    ensures forall i :: 0 <= i < |s| ==> r[i] == f(s[i])
  {
    if s == [] then [] else [f(s[0])] + Project(s[1..], f)
  }

  /** Projecting a concatenation projects each part. */
  lemma ProjectAppend<T, U>(s: seq<T>, t: seq<T>, f: T -> U)
    ensures Project(s + t, f) == Project(s, f) + Project(t, f)
  {
    var l, r := Project(s + t, f), Project(s, f) + Project(t, f);
    assert |l| == |r|;
    forall i | 0 <= i < |l|
      ensures l[i] == r[i]
    {
      if i < |s| {
        assert (s + t)[i] == s[i];
      } else {
        assert (s + t)[i] == t[i - |s|];
      }
    }
  }

  function View(u: User): UserView {
    UserView(u.id, u.nombre, u.email, u.rol, u.twofa)
  }

  function ViewId(v: UserView): int { v.id }

  /** The user listing of both panels: every user who is not an engineer,
      in table order, without the hash. */
  function ListNonEngineers(users: seq<User>): (r: seq<UserView>)
    ensures |r| <= |users|
    ensures forall i :: 0 <= i < |r| ==> r[i].rol != ENGINEER
  {
    var kept := Filter(users, (u: User) => u.rol != ENGINEER);
    assert forall i :: 0 <= i < |kept| ==> kept[i] in kept;
    Project(kept, View)
  }

  /** The listing shows every non-engineer user, without the hash, and
      nothing else. */
  lemma ListingIff(users: seq<User>, v: UserView)
    ensures v in ListNonEngineers(users) <==> exists u :: u in users && u.rol != ENGINEER && v == View(u)
  {
    var kept := Filter(users, (u: User) => u.rol != ENGINEER);
    var r := ListNonEngineers(users);
    if v in r {
      var i :| 0 <= i < |r| && r[i] == v;
      assert kept[i] in kept;
    }
    if u :| u in users && u.rol != ENGINEER && v == View(u) {
      var i :| 0 <= i < |kept| && kept[i] == u;
      assert r[i] == v;
    }
  }

  /** The listing of a table with one more user at the end lists the same
      rows, then that user if they are not an engineer: with the empty
      listing of the empty table, this fixes every listing row and its
      order. */
  lemma ListingAppend(users: seq<User>, u: User)
    ensures ListNonEngineers(users + [u]) ==
      ListNonEngineers(users) + (if u.rol != ENGINEER then [View(u)] else [])
  {
    var keep := (x: User) => x.rol != ENGINEER;
    FilterAppend(users, u, keep);
    ProjectAppend(Filter(users, keep), if keep(u) then [u] else [], View);
  }

  /** With unique ids in the table, no user is listed twice. */
  lemma ListingUnique(users: seq<User>)
    requires UniqueIds(users)
    ensures UniqueKeys(ListNonEngineers(users), ViewId)
  {
    var kept := Filter(users, (x: User) => x.rol != ENGINEER);
    FilterKeepsUnique(users, (x: User) => x.rol != ENGINEER, IdOf);
    var r := ListNonEngineers(users);
    forall i, j | 0 <= i < |r| && 0 <= j < |r| && ViewId(r[i]) == ViewId(r[j])
      ensures i == j
    {
      assert IdOf(kept[i]) == IdOf(kept[j]);
    }
  }

  function Row(a: Analysis): ResultRow {
    ResultRow(a.masked, a.resultado, a.fecha)
  }

  /** The results page query: the analyses stored for one user id. */
  function ResultsOf(analisis: seq<Analysis>, userId: int): (r: seq<ResultRow>)
    ensures |r| <= |analisis|
  {
    Project(Filter(analisis, (a: Analysis) => a.userId == userId), Row)
  }

  /** The results page shows the caller's own analyses and no one else's. */
  lemma ResultsIff(analisis: seq<Analysis>, userId: int, x: ResultRow)
    ensures x in ResultsOf(analisis, userId) <==>
      exists a :: a in analisis && a.userId == userId && x == Row(a)
  {
    var kept := Filter(analisis, (a: Analysis) => a.userId == userId);
    var r := ResultsOf(analisis, userId);
    if x in r {
      var i :| 0 <= i < |r| && r[i] == x;
      assert kept[i] in kept;
    }
    if a :| a in analisis && a.userId == userId && x == Row(a) {
      var i :| 0 <= i < |kept| && kept[i] == a;
      assert r[i] == x;
    }
  }

  /** Logging one more analysis adds one row at the end of its owner's
      results and leaves everyone else's as they were: with the empty
      results of the empty log, this fixes every results row and its
      order. */
  lemma ResultsAppend(analisis: seq<Analysis>, a: Analysis, userId: int)
    ensures ResultsOf(analisis + [a], userId) ==
      ResultsOf(analisis, userId) + (if a.userId == userId then [Row(a)] else [])
  {
    var keep := (x: Analysis) => x.userId == userId;
    FilterAppend(analisis, a, keep);
    ProjectAppend(Filter(analisis, keep), if keep(a) then [a] else [], Row);
  }

  /** A logged analysis carries the mask of the password, which keeps at
      most its first two characters and never determines it
      (MaskDependsOnlyOnPrefix, MaskLosesPassword); a password that already
      has the mask's shape is stored as it is (MaskFixedPointIff). */
  function NewAnalysis(id: int, userId: int, password: string, twofa: bool, fecha: string): (a: Analysis)
    ensures a.masked == Mask(password)
    ensures a.resultado == Label(AnalyzePassword(password, twofa))
    ensures a.id == id && a.userId == userId && a.fecha == fecha
  {
    Analysis(id, userId, Mask(password), Label(AnalyzePassword(password, twofa)), fecha)
  }
}
