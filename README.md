# Password-strength web app: a Dafny model

This project models the logic of `seguridad_contrasenas1/app.py`, a small
Flask application. Users register and log in, then submit a password to be
rated "Fuerte", "Media" or "Débil". The rating sums four criteria plus a bonus
point for two-factor authentication (2FA). Admins and engineers manage user
accounts, and engineers also register simulated third-party API connections.

The model has five modules:

- `Wrappers` (`wrappers.dfy`): the `Option` type.
- `Passwords` (`passwords.dfy`): the pure rules. These are the strength rating
  `analyze_password`, the mask stored in place of a password,
  `simulate_api_connection` and `check_password`.
- `Access` (`access.dfy`): the session as an optional `(user_id, role)` pair,
  the three guard decorators as predicates, the "only an engineer may create
  admins" rewrite, and the landing view chosen after login.
- `Tables` (`tables.dfy`): rows of the `usuarios`, `analisis` and `apis`
  tables. Each SQL statement the handlers run is a function on the table
  contents, with lemmas about uniqueness and frames.
- `App` (`server.dfy`): the class `Server`. It holds the three tables as
  sequence fields, the AUTOINCREMENT counters and one client's session.
  There is one method per handler action. Each method says exactly what the
  tables and the session become, and keeps the schema invariant `Valid()`
  (unique emails, unique ids in each of the three tables, every id below
  its table's counter).

The hash function (`hash_password`, SHA-256) is a constant field of
`Server`, supplied when the server is built. The model assumes nothing about
it except that it is a function. The one exception is the client scenario
`App.DuplicateEmailAndWrongPassword`, which requires that its two demo
passwords have different hashes. Timestamps (`datetime.now()`) are parameters
of the methods that store them.

Points where the code does less than its comments or role names suggest:

- The admin rewrite changes only a requested `'admin'` into `'user'`. Any
  other role, `'engineer'` included, is stored as given
  (`Access.AdminMayGrantEngineer`).
- The admin and engineer delete and edit actions do not check the target
  row's role. An admin can delete or edit an engineer's row by id.
- Deleting a user leaves that user's analyses in the log.
- A password made of two characters followed by `***` is its own mask, so
  the log stores it verbatim (`Passwords.MaskFixedPointIff`).
- `analyze` inserts the analysis even when no row has the session's id. The
  2FA update then changes nothing.
- An edit to an email that another row already holds raises an
  IntegrityError that the source does not catch. The model answers `Failed`
  and changes nothing, because the failed statement has no effect.

## Model

| member | source | states |
|---|---|---|
| `Passwords.AnyChar` | seguridad_contrasenas1/app.py:79-81 | the "some character satisfies the test" check is true exactly when some index of `s` holds a character satisfying `f` |
| `Passwords.CriteriaOf` | seguridad_contrasenas1/app.py:77-82 | the length criterion holds iff the password has at least 8 characters; the uppercase and special criteria hold iff such a character occurs; the alphanumeric one iff both a letter and a digit occur |
| `Passwords.Score` | seguridad_contrasenas1/app.py:77-85 | the score is at most 5; it is 5 exactly when all four criteria hold and 2FA is on; 2FA alone gives at least 1 |
| `Passwords.AnalyzePassword` | seguridad_contrasenas1/app.py:76-90 | "Fuerte" iff 2FA is on, the length is at least 8 and there is an uppercase letter, a special character, a letter and a digit; "Media" iff the score is 3 or 4; "Débil" iff the score is below 3 |
| `Passwords.NoStrongWithoutTwoFactor` | seguridad_contrasenas1/app.py:83-87 | without 2FA the verdict is never "Fuerte" |
| `Passwords.TwoFactorNeverLowers` | seguridad_contrasenas1/app.py:84-90 | turning 2FA on never lowers the verdict and raises it by at most one bucket |
| `Passwords.ExampleFourCriteria` | seguridad_contrasenas1/app.py:77-90 | "Ab1!5678" is "Media" without 2FA and "Fuerte" with it |
| `Passwords.ExampleNoCriteria` | seguridad_contrasenas1/app.py:77-90 | "abc" without 2FA is "Débil" |
| `Passwords.Mask` | seguridad_contrasenas1/app.py:167 | the mask has length 5 when the password has at least 2 characters and length 3 otherwise; it ends in three `*`; when long enough it starts with the password's first two characters |
| `Passwords.MaskDependsOnlyOnPrefix` | seguridad_contrasenas1/app.py:167 | the mask of a password equals the mask of its first two characters, so no later character reaches it |
| `Passwords.MaskEqualIff` | seguridad_contrasenas1/app.py:167 | two passwords share a mask iff both are shorter than 2 characters or both have at least 2 and begin with the same two |
| `Passwords.MaskLosesPassword` | seguridad_contrasenas1/app.py:166-167 | every mask is shared by at least two passwords, so the stored value never determines the password |
| `Passwords.MaskFixedPointIff` | seguridad_contrasenas1/app.py:167 | the mask leaves a password unchanged iff it is two characters followed by three asterisks |
| `Passwords.ExampleMaskFixedPoint` | seguridad_contrasenas1/app.py:167 | "ab***" is its own mask, so it is logged verbatim |
| `Passwords.LowerChar` | seguridad_contrasenas1/app.py:94 | lowercasing a character yields no uppercase letter, shifts `A`..`Z` by 32 and keeps every other character |
| `Passwords.Lower` | seguridad_contrasenas1/app.py:94 | `lower()` keeps the length and lowercases each character in place |
| `Passwords.SimulateApiConnection` | seguridad_contrasenas1/app.py:92-94 | the status is "exitoso" or "fallido", and "exitoso" iff the lowercased name is facebook, gmail or twitter |
| `Passwords.ApiStatusIff` | seguridad_contrasenas1/app.py:93-94 | the status is "exitoso" iff the name equals a known name up to ASCII case |
| `Passwords.ApiStatusIgnoresCase` | seguridad_contrasenas1/app.py:94 | two names equal up to case get the same status |
| `Passwords.UnknownLengthFails` | seguridad_contrasenas1/app.py:93-94 | a name whose length matches no known name always fails |
| `Passwords.ExampleKnownApi` | seguridad_contrasenas1/app.py:92-94 | "Gmail" connects ("exitoso") |
| `Passwords.ExampleUnknownApi` | seguridad_contrasenas1/app.py:92-94 | "unknownservice" fails ("fallido") |
| `Passwords.CheckPasswordFacts` | seguridad_contrasenas1/app.py:43-47 | the password whose hash was stored is accepted; acceptance depends on the supplied password only through its hash, so a password accepted where another is refused has a different hash |
| `Access.GuardsNest` | seguridad_contrasenas1/app.py:49-74 | the engineer guard implies the admin guard, which implies the login guard; an anonymous session passes none; a "user" session passes only the login guard |
| `Access.AssignedRole` | seguridad_contrasenas1/app.py:204-207 | a stored "admin" implies an engineer actor; an engineer's request is stored as given; a request other than "admin" is stored as given; a non-engineer's "admin" becomes "user" |
| `Access.AssignedRoleIdempotent` | seguridad_contrasenas1/app.py:225-226 | applying the rewrite twice gives the same role as applying it once |
| `Access.AdminMayGrantEngineer` | seguridad_contrasenas1/app.py:206-207 | as written, an admin actor requesting "engineer" stores "engineer"; requesting "admin" stores "user"; an engineer requesting "admin" stores "admin" |
| `Access.EngineerAddRole` | seguridad_contrasenas1/app.py:252 | the engineer panel stores "admin" exactly for add_admin and "user" exactly for add_user |
| `Access.LandingFor` | seguridad_contrasenas1/app.py:140-145 | login lands on the engineer panel iff the role is "engineer" and on the admin panel iff it is "admin" |
| `Tables.Filter` | seguridad_contrasenas1/app.py:232 | a WHERE selection is never longer than the table and holds exactly the rows that meet the condition |
| `Tables.FilterMultiset` | seguridad_contrasenas1/app.py:232 | a selection holds each row that meets the condition as many times as the table does, and no other row |
| `Tables.FilterAppend` | seguridad_contrasenas1/app.py:183 | selecting from a table with one more row at the end gives the old selection followed by that row when it meets the condition |
| `Tables.AppendFreshKey` | seguridad_contrasenas1/app.py:17-31 | appending a row whose key no existing row has keeps the key column unique |
| `Tables.FindByEmail` | seguridad_contrasenas1/app.py:133-134 | a found row is in the table and has the email; nothing is found iff no row has the email |
| `Tables.Authenticate` | seguridad_contrasenas1/app.py:133-136 | a successful login names a table row with that email whose hash is the hash of the supplied password |
| `Tables.AuthenticateIff` | seguridad_contrasenas1/app.py:136 | with unique emails, login succeeds iff some row has that email and the hash of the supplied password |
| `Tables.WrongPasswordFails` | seguridad_contrasenas1/app.py:136-147 | when no row with that email has the supplied password's hash, login fails |
| `Tables.NewUser` | seguridad_contrasenas1/app.py:115-116 | an inserted row has the given id, name, email, hash and role, and 2FA off |
| `Tables.InsertUser` | seguridad_contrasenas1/app.py:115-121 | insertion fails iff the email is taken, and otherwise appends exactly the new row |
| `Tables.InsertKeepsUnique` | seguridad_contrasenas1/app.py:16-22 | a successful insert of a fresh id keeps emails and ids unique; after a refused insert exactly one row has that email |
| `Tables.DeleteById` | seguridad_contrasenas1/app.py:217 | the rows left are exactly the rows whose id differs from the deleted one |
| `Tables.DeleteFacts` | seguridad_contrasenas1/app.py:262 | deleting an absent id changes nothing; deletion keeps emails and ids unique; no row with the id remains |
| `Tables.UpdateById` | seguridad_contrasenas1/app.py:228-229 | an UPDATE by id keeps the table's length and order, rewrites the rows with that id and keeps all others |
| `Tables.EditRow` | seguridad_contrasenas1/app.py:228-229 | an edit sets name, email, role and 2FA and keeps the id and the password hash |
| `Tables.SetTwofa` | seguridad_contrasenas1/app.py:165 | the 2FA update is the edit that keeps name, email and role |
| `Tables.SetTwofaById` | seguridad_contrasenas1/app.py:165 | only the 2FA flag of the rows with that id changes; every other row is kept |
| `Tables.SetTwofaKeepsUnique` | seguridad_contrasenas1/app.py:165 | the 2FA update keeps emails and ids unique |
| `Tables.Edit` | seguridad_contrasenas1/app.py:228-229 | the edit keeps the table's length and order, applies the four-column edit to every row with that id and keeps every other row |
| `Tables.EditConflictsIff` | seguridad_contrasenas1/app.py:228-229 | with unique emails and ids, the edit conflicts iff a row with that id exists and the edited table would hold one email twice, so the conflict test is exactly the UNIQUE violation |
| `Tables.EditFacts` | seguridad_contrasenas1/app.py:271-272 | an edit that violates no UNIQUE constraint keeps emails and ids unique and keeps every row's id and hash |
| `Tables.ListNonEngineers` | seguridad_contrasenas1/app.py:232 | the listing is no longer than the table and shows no engineer |
| `Tables.ListingIff` | seguridad_contrasenas1/app.py:283 | a row is listed iff it is the view, without the hash, of some user whose role is not "engineer" |
| `Tables.ProjectAppend` | seguridad_contrasenas1/app.py:232 | projecting columns of two tables placed end to end projects each in turn |
| `Tables.ListingAppend` | seguridad_contrasenas1/app.py:232 | the listing of a table with one more user is the old listing followed by that user's view iff they are not an engineer; with the empty listing of the empty table this fixes every row and its order |
| `Tables.ListingUnique` | seguridad_contrasenas1/app.py:232 | with unique ids in the table, no user appears twice in the listing |
| `Tables.ResultsOf` | seguridad_contrasenas1/app.py:183 | the results are no more than the analyses in the log |
| `Tables.ResultsIff` | seguridad_contrasenas1/app.py:183-184 | a row is shown iff it comes from an analysis of the caller's own id |
| `Tables.ResultsAppend` | seguridad_contrasenas1/app.py:166-184 | logging one more analysis adds exactly its row at the end of its owner's results and changes no one else's; with the empty results of the empty log this fixes every row and its order |
| `Tables.NewAnalysis` | seguridad_contrasenas1/app.py:166-171 | a logged analysis stores the mask of the password, which keeps at most its first two characters, alongside the verdict label for the submitted 2FA choice, the caller's id and the date |
| `App.Server.constructor` | seguridad_contrasenas1/app.py:13-38 | a fresh database has empty tables, every AUTOINCREMENT counter at 1, satisfies the schema invariant and starts anonymous |
| `App.Server.Valid` | seguridad_contrasenas1/app.py:16-34 | the schema invariant implies that the next AUTOINCREMENT id of each table is held by no row, so no insertion reuses an id |
| `App.Server.InsertRow` | seguridad_contrasenas1/app.py:209-214 | the insert succeeds iff the email was free; on success exactly one row with the next id and 2FA off is appended and the counter advances; otherwise nothing changes |
| `App.Server.DeleteRow` | seguridad_contrasenas1/app.py:217 | the table becomes the old table without the rows of that id; the invariant holds |
| `App.Server.EditRowById` | seguridad_contrasenas1/app.py:228-229 | the edit succeeds iff it violates no UNIQUE constraint, and then rewrites only the four columns of that row |
| `App.Server.Register` | seguridad_contrasenas1/app.py:105-124 | registration succeeds iff the email is free, and then adds one row with the next id, role "user" and 2FA off, and advances the id counter; a duplicate leaves the table and the counter unchanged |
| `App.Server.Login` | seguridad_contrasenas1/app.py:126-148 | login succeeds iff some row has that email and the supplied password's hash; on success the session holds that row's id and role and the landing follows the role; on failure the session is unchanged; the schema invariant is kept |
| `App.Server.Logout` | seguridad_contrasenas1/app.py:150-155 | the session ends anonymous; the guard refuses an already anonymous caller; the schema invariant is kept |
| `App.Server.Analyze` | seguridad_contrasenas1/app.py:157-176 | an anonymous caller changes nothing, counters included; otherwise the caller's 2FA flag is set, one masked analysis with its verdict is appended under the next id and the counter advances, so the caller's results gain exactly that row at the end and everyone else's results are unchanged |
| `App.Server.Results` | seguridad_contrasenas1/app.py:178-187 | refused iff anonymous; otherwise exactly the caller's own analyses |
| `App.Server.AdminView` | seguridad_contrasenas1/app.py:232-235 | admins and engineers see the non-engineer listing; anyone else is refused |
| `App.Server.AdminAdd` | seguridad_contrasenas1/app.py:199-214 | the requested role, "user" when absent, goes through the admin rewrite; the row is added with the next id iff the email is free, and the id counter advances exactly then; a refused caller changes nothing |
| `App.Server.AdminDelete` | seguridad_contrasenas1/app.py:215-219 | removes only the rows of that id, whatever their role, and leaves the analysis log untouched |
| `App.Server.AdminEdit` | seguridad_contrasenas1/app.py:220-231 | edits the row of that id with the rewritten role; a UNIQUE violation fails with no change |
| `App.Server.EngineerView` | seguridad_contrasenas1/app.py:283-288 | engineers see the non-engineer listing and the API records; anyone else is refused |
| `App.Server.EngineerAdd` | seguridad_contrasenas1/app.py:247-259 | adds a "user" or an "admin" according to the action, with the next id, iff the email is free, and the id counter advances exactly then; a refused caller changes nothing |
| `App.Server.EngineerDelete` | seguridad_contrasenas1/app.py:260-264 | removes only the rows of that id and leaves the analysis log untouched |
| `App.Server.EngineerEdit` | seguridad_contrasenas1/app.py:265-274 | edits the row of that id with the role exactly as requested; a UNIQUE violation fails with no change |
| `App.Server.EngineerAddApi` | seguridad_contrasenas1/app.py:275-282 | appends one API record with the next id and the simulated status of its name, and advances the API counter; a refused caller changes nothing |
| `App.DuplicateEmailAndWrongPassword` | seguridad_contrasenas1/app.py:114-147 | a second registration with the same email fails; a wrong password opens no session, and the results page then stays refused |

## Left out

- Flask routing, templates, `flash` messages, redirects and cookies. The
  session is a plain optional `(user_id, role)` value held by the server
  object, and a reply says only whether the guard refused, the request
  failed, or which page data was shown.
- The `/` route (lines 99-103) only redirects, so it is not modelled. GET
  requests that only render a form are not modelled either.
- SQLite connections, cursors, commits and the schema creation of `init_db`.
  The tables are sequences in memory. The `FOREIGN KEY` of `analisis` is not
  enforced, as SQLite does not enforce it by default.
- SHA-256: `hash_password` is a function parameter of the server,
  determinism is the only thing assumed.
- `datetime.now()`: timestamps are method parameters.
- App.Server.Results: ignores `ORDER BY fecha DESC` and lists the caller's
  analyses in insertion order, because ordering by timestamp text is not
  visible logic here.
- App.Server.EngineerView: ignores `ORDER BY fecha_configuracion DESC` for
  API records, for the same reason (this also applies to every engineer
  action that shows the panel).
- Python's Unicode `isupper`, `isalpha`, `isdigit` and `lower`: the model
  uses the ASCII classes and ASCII lowercasing.
- Form parsing errors: a missing form field (KeyError) and a non-numeric
  `user_id` (ValueError in `int(...)`) cannot occur, because the methods take
  typed parameters.
- Concurrency between requests and the storage engine's isolation: one
  request runs at a time.
- `create_superuser.py` (a one-shot seeding script) and `setup.py`
  (packaging metadata).
