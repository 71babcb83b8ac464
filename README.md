# QR attendance backend — a verified Dafny model

The system is the backend of a classroom attendance service. A teacher logs in and creates a class session at a geographic position. Students scan the session's QR code and submit a check-in with their student number, name, national id and current position. The backend accepts a check-in only when the student is within a configurable radius of the classroom, and stores it together with the measured distance. Teachers list their own classes and the check-ins of those classes, newest first, and export those check-ins to a spreadsheet. A bearer-token middleware guards the teacher routes.

The model follows the backend file by file:

| module | file | what it holds |
|---|---|---|
| `Js` | — | JSON body properties (`undefined`, `null`, a value), truthiness, `parseInt(s, 10)`, `String.prototype.split` |
| `Query` | — | what `findOne`, `findByPk`, `findAll` and `ORDER BY … DESC` return over a table held as a sequence of rows |
| `DocenteModel`, `ClaseModel`, `AsistenciaModel` | `models/*.js` | one datatype per row type, the column constraints MySQL enforces, the key constraints |
| `Database` | — | class `Store`: the three tables, their auto-increment counters, the table invariant `Valid()` (constraints, keys, foreign keys), and `create` / `save` |
| `Http` | — | the answer of a handler: status, `message`, payload |
| `AuthMiddleware`, `AuthController`, `AsistenciaController`, `ClaseController`, `DocentesController` | `middleware/`, `controllers/` | one member per handler |

Handlers that write (check-in, class creation, account creation, update and deactivation) are module-level methods that take the `Database.Store` object and write through its `Create…` and `SaveDocente` methods. Each states, case by case, the answer and the whole new content of the table it may change, and keeps `Valid()`. Handlers that only read are functions of the tables. The owned-class check and the export loop keep their step-by-step form as read-only methods. The collaborators the backend calls are parameters:
- the geodesic distance `geolib.getDistance`, as a function of two points into whole metres;
- `argon2.hash` and `argon2.verify`;
- `jwt.sign` and `jwt.verify`, the latter returning `None` where it throws;
- the clock;
- the `DISTANCIA_METROS` setting;
- Sequelize's `isEmail` validator.

## Model

| member | source | states |
|---|---|---|
| Js.Split | backEnd/src/middleware/auth.middleware.js:13 | `split(' ')` yields at least one part, no part contains the separator, and joining the parts with the separator gives the header back |
| Js.SplitJoin | backEnd/src/middleware/auth.middleware.js:13-19 | splitting inverts joining separator-free parts, so `scheme token` splits into exactly those two parts |
| Js.ParseIntOfDecimal | backEnd/src/controllers/asistencia.controller.js:110 | `parseInt` of the decimal text of n is n, so `claseId=7` addresses class 7 |
| Js.ParseIntOfDigits | backEnd/src/controllers/asistencia.controller.js:110 | a run of digits followed by a non-digit or nothing parses to the value of the digits |
| Js.ParseIntIgnoresTail | backEnd/src/controllers/asistencia.controller.js:110 | text after the leading digits is ignored: `7abc` also addresses class 7 |
| Js.ParseInt | backEnd/src/controllers/asistencia.controller.js:110 | `parseInt(s, 10)` is `NaN` exactly when no digit follows the leading white space and the optional sign; the value is negative only after a leading `-`, and not negative otherwise |
| Js.Utf8Length | backEnd/src/models/Clase.js:35-37 | the byte length of the UTF-8 encoding, which MySQL's TEXT limit counts: between one and four bytes per character, one per ASCII character |
| Query.FirstIndex | backEnd/src/controllers/auth.controller.js:28 | `findOne` picks the first row the WHERE clause selects; no position if and only if no row is selected |
| Query.FindOne | backEnd/src/controllers/docentes.controller.js:63-72 | the row found is stored and selected; nothing is found exactly when no row is selected |
| Query.FirstIndexUpdate | backEnd/src/controllers/docentes.controller.js:153-154 | replacing a row by one the WHERE clause treats alike leaves the first match where it was |
| Query.FindAll | backEnd/src/controllers/asistencia.controller.js:130-131 | `findAll` returns every selected row as often as it is stored and no other row |
| Query.InsertDesc | backEnd/src/controllers/asistencia.controller.js:138 | inserting into a descending sequence keeps it descending and adds exactly that row |
| Query.ConsSorted | backEnd/src/controllers/asistencia.controller.js:138 | a head whose key is at least that of the first row keeps a descending sequence descending |
| Query.OrderDesc | backEnd/src/controllers/asistencia.controller.js:138 | `ORDER BY key DESC` is a permutation of its input, sorted with the largest key first |
| Query.OrderDescKeepsTies | backEnd/src/controllers/asistencia.controller.js:138 | the ordering is stable: for every key value, the rows with that key come out exactly in storage order |
| Query.InsertDescTies | backEnd/src/controllers/asistencia.controller.js:138 | inserting a row puts it in front of the rows that share its key and leaves the others with that key in order |
| Query.InsertAfterHead | backEnd/src/controllers/asistencia.controller.js:138 | putting the larger head before the insertion into the rest keeps the order descending and the rows those of the input plus the new one |
| Query.PermutationKeeps | backEnd/src/controllers/clase.controller.js:47-51 | reordering rows that all satisfy the WHERE clause yields only rows that satisfy it |
| DocenteModel.SameKeysStayFree | backEnd/src/models/Docente.js:10-34 | with the key, `usuario` and `email` unique, a row that keeps those three values cannot break a unique index |
| DocenteModel.ViewHidesPassword | backEnd/src/controllers/docentes.controller.js:8 | the password-free projection does not depend on the stored hash |
| Database.Store.constructor | backEnd/src/models/Docente.js:5-9 | the tables start empty with their counters at 1, satisfying the invariant |
| Database.Store.Valid | backEnd/src/models/Asistencia.js:11-62 | the table invariant: column sizes and DECIMAL bounds, unique keys and `usuario`/`email` indexes, and the foreign keys of `asistencias` and `clases` (the same for the rules of Clase.js and Docente.js); it implies that the next auto-increment key of each table is not yet used |
| Database.Store.CreateDocente | backEnd/src/models/Docente.js:10-38 | an insert stores the row under the next key with `estado` true if the column sizes, `isEmail` and both unique indexes allow it; otherwise nothing changes |
| Database.Store.SaveDocente | backEnd/src/models/Docente.js:10-34 | a save replaces the row exactly when it still fits the columns and clashes with no other row on key, `usuario` or `email` |
| Database.Store.CreateClase | backEnd/src/models/Clase.js:11-42 | an insert stores the row when the title fits 100 characters, the description (if any) fits TEXT's 65,535 UTF-8 bytes, the coordinates fit their DECIMAL columns and the owning teacher exists; `estado` defaults to true |
| ClaseModel.LongDescriptionRefused | backEnd/src/models/Clase.js:35-37 | a description over 65,535 characters exceeds TEXT's 65,535 bytes, so the row does not fit |
| Database.Store.CreateAsistencia | backEnd/src/models/Asistencia.js:11-55 | an insert stores the row when `legajo` fits 20 characters, `dni` 15, the names 100, the coordinates and the (nullable) distance their DECIMAL columns and the class exists; `validacion_ubicacion` defaults to false |
| AsistenciaModel.ValidatedAppend | backEnd/src/controllers/asistencia.controller.js:56-58 | appending a row that records a passed check and its distance keeps a table of such rows so |
| AuthMiddleware.ReadCredential | backEnd/src/middleware/auth.middleware.js:9-23 | no credential exactly when the header is absent or empty; a presented token comes from a header that is exactly a six-letter Bearer scheme, one space and a space-free token |
| AuthMiddleware.IsBearer | backEnd/src/middleware/auth.middleware.js:21 | `/^Bearer$/i` accepts exactly six characters, each the lower- or upper-case letter of `bearer` in its place |
| AuthMiddleware.BearerHeader | backEnd/src/middleware/auth.middleware.js:19-23 | conversely, `Bearer`, in any letter case, a space and a space-free token always present that token |
| AuthMiddleware.Authenticate | backEnd/src/middleware/auth.middleware.js:25-31 | the request is admitted exactly when a token is presented and verifies, with the decoded claims; every refusal is a 401 |
| AuthMiddleware.VerifyToken | backEnd/src/middleware/auth.middleware.js:6-32 | on admission `req.docente` is the decoded claims and `next` is called once; on refusal the 401 is sent, `req.docente` is untouched and `next` is not called |
| AuthController.TokenClaims | backEnd/src/controllers/auth.controller.js:8-11 | the token's payload is the account's id and login name |
| AuthController.GenerateToken | backEnd/src/controllers/auth.controller.js:6-15 | the token is `jwt.sign` over exactly the id and login name |
| AuthController.GeneratedTokenVerifies | backEnd/src/controllers/auth.controller.js:6-15 | with a `verify` that undoes `sign`, a generated token decodes to the account's id and login name, and two accounts that share these get the same token: nothing else is signed |
| AuthController.FirstWithUsuarioIsFound | backEnd/src/controllers/auth.controller.js:28 | `findOne({ where: { usuario } })` returns exactly the first account with that login name |
| AuthController.Login | backEnd/src/controllers/auth.controller.js:18-62 | a missing login name or password gives 400; once both are given, every failure, an unknown user or a wrong password, is the same 401 `Credenciales inválidas`; success exactly when the first account with that login name accepts the password, with the account (no hash) and a token signed over its id and login name |
| AuthController.CheckAuth | backEnd/src/controllers/auth.controller.js:65-90 | 404 exactly when no account has the token's id; otherwise 200 with that account, no hash |
| AuthController.LoginThenCheckAuth | backEnd/src/controllers/auth.controller.js:43-56 | the token a login returns, sent back as `Bearer <token>`, passes the middleware with the account's own claims, and `checkAuth` then answers with the account the login showed |
| AuthController.DeactivatedTeacherStillLogsIn | backEnd/src/controllers/auth.controller.js:28-40 | login never consults `estado`: deactivating an account changes no login answer |
| AsistenciaController.FindClase | backEnd/src/controllers/asistencia.controller.js:23-27 | the class is looked up by key alone, whatever its `estado` |
| AsistenciaController.Threshold | backEnd/src/controllers/asistencia.controller.js:36 | the radius is the configured value when set and 50 metres otherwise |
| AsistenciaController.CheckGates | backEnd/src/controllers/asistencia.controller.js:12-45 | the gates in the source's order: a falsy field (0 or empty included) refuses with 400, then an unknown class with 404, then a distance above the threshold with 400; a distance up to and including the threshold passes with that distance; every refusal is a failure answer |
| AsistenciaController.RegistrarAsistencia | backEnd/src/controllers/asistencia.controller.js:6-71 | a refused check-in gets the gate's answer and leaves the table unchanged. A passed one stores exactly one row under the next key, with the student's data verbatim, the distance and `validacion_ubicacion` true, and answers 201 with it; if the row does not fit the columns it answers 500 and stores nothing. Tables in which every row is validated stay so |
| AsistenciaController.Resubmission | backEnd/src/controllers/asistencia.controller.js:48-59 | when the first of two identical check-ins is accepted so is the second: the table gains both rows, in order, under two different keys, identical but for key and timestamp |
| AsistenciaController.OwnedClassIds | backEnd/src/controllers/asistencia.controller.js:86-91 | the list holds exactly the keys of the teacher's classes, deactivated ones included |
| AsistenciaController.ScopeFor | backEnd/src/controllers/asistencia.controller.js:93-114 | no scope exactly when the teacher has no class; forbidden exactly when a `claseId` is given that does not parse to an owned class; otherwise every owned class, or just the requested one; every admitted class is owned |
| AsistenciaController.TitleOf | backEnd/src/controllers/asistencia.controller.js:133-136 | the joined title is that of the referenced class, and is present exactly when that class exists |
| AsistenciaController.WithTitles | backEnd/src/controllers/asistencia.controller.js:133-136 | the joined rows are the query's rows, in order, each with its class's title |
| AsistenciaController.Fetch | backEnd/src/controllers/asistencia.controller.js:130-139 | exactly the stored check-ins of the admitted classes, each as often as stored, newest first, each with its class's title |
| AsistenciaController.GetAsistenciasPorDocente | backEnd/src/controllers/asistencia.controller.js:73-152 | a teacher without classes gets 200 with an empty list; a `claseId` that is not theirs gives 403; otherwise 200 with the check-ins of the requested class or of all their classes; every check-in returned belongs to one of their classes |
| AsistenciaController.ExportRow | backEnd/src/controllers/asistencia.controller.js:219-232 | the row shows the class title or `N/A`, the student's data as stored, the distance or `N/A` when it is NULL or 0, and `Sí` or `No` for the proximity flag |
| AsistenciaController.FetchedAreStored | backEnd/src/controllers/asistencia.controller.js:189-196 | every check-in the export query returns is a stored one |
| AsistenciaController.FetchedAreValidated | backEnd/src/controllers/asistencia.controller.js:189-196 | on a table of validated check-ins, every check-in the export query returns is validated |
| AsistenciaController.AddRows | backEnd/src/controllers/asistencia.controller.js:219-232 | the loop adds exactly one worksheet row per listed check-in, in order, each the check-in's export row |
| AsistenciaController.ExportAsistenciasAExcel | backEnd/src/controllers/asistencia.controller.js:154-248 | a teacher without classes gets 404, not an empty sheet; a foreign `claseId` gives 403; otherwise `asistencias.xlsx` with exactly one row per listed check-in, in the listing's order; on a table of validated check-ins every row says `Sí` |
| ClaseController.ZeroCoordinateSeparatesRules | backEnd/src/controllers/clase.controller.js:97 | a latitude of 0 is refused by `crearClase` and accepted by `crearClase2` |
| ClaseController.CrearClase | backEnd/src/controllers/clase.controller.js:3-40 | a falsy title or coordinate (0 included) gives 400 with no insert; otherwise one class owned by the caller with the request's title, description and position, active, 201; or 500 with nothing stored when the table refuses it |
| ClaseController.CrearClase2 | backEnd/src/controllers/clase.controller.js:92-123 | only an absent coordinate is refused with 400; a `null` one reaches the insert and fails with 500; the class is always stored active |
| ClaseController.ClasesPorDocente | backEnd/src/controllers/clase.controller.js:43-63 | exactly the caller's active classes, each as often as stored, newest first |
| ClaseController.ClasePorId | backEnd/src/controllers/clase.controller.js:65-90 | 404 unless a class matches key, teacher and `estado = true` together; otherwise that class |
| ClaseController.ClasePorIdAgreesWithListing | backEnd/src/controllers/clase.controller.js:47-76 | a class is found by key exactly when the teacher's class listing contains a class with that key |
| DocentesController.GetAllDocentes | backEnd/src/controllers/docentes.controller.js:5-20 | every account, deactivated ones included, in storage order, each without its password hash |
| DocentesController.GetDocenteById | backEnd/src/controllers/docentes.controller.js:23-44 | 404 exactly when no account has the key; otherwise that account without its hash |
| DocentesController.CreateDocente | backEnd/src/controllers/docentes.controller.js:51-98 | a falsy field gives 400; a taken login name gives 400 before a taken email is considered; otherwise one account with the password's hash, never the password, 201 without the hash, or 500 when a column refuses it; refusals change nothing |
| DocentesController.Amended | backEnd/src/controllers/docentes.controller.js:114-121 | an update never changes the key, the login name or `estado` |
| DocentesController.EmptyUpdateKeepsAccount | backEnd/src/controllers/docentes.controller.js:114-121 | an update with no truthy field leaves the account as it was |
| DocentesController.UpdateDocente | backEnd/src/controllers/docentes.controller.js:101-138 | an unknown key gives 404. Otherwise only that account changes, each of name, surname, email and password exactly when its input is truthy (the password by its hash), and the answer hides the hash. An email already in use or a refused column gives 500 with nothing written |
| DocentesController.DeleteDocente | backEnd/src/controllers/docentes.controller.js:141-164 | an unknown key gives 404; otherwise the account stays with `estado` false and nothing else changes |
| DocentesController.RegisteredTeacherCanLogIn | backEnd/src/controllers/docentes.controller.js:75-84 | an account registered with a login name not yet taken can log in with the same password, and the session names the new account |

## Left out

- Geodesic distance: `geolib.getDistance` is a parameter from two points to whole metres. The spherical trigonometry is not modelled, and neither is the distance printed with `toFixed(2)` in the too-far message: the model's message stops before it.
- `DISTANCIA_METROS` is taken as a number, or `None` when unset or empty. The coercion of other texts by `<=` is not modelled; a non-numeric setting would make `NaN` refuse every check-in.
- Cryptography: `argon2.hash`, `argon2.verify`, `jwt.sign` and `jwt.verify` are parameters. A token's `iat` and `exp` claims, its expiry, the secret, and the random salt of each hash are not modelled. `argon2.verify` throwing on a malformed hash is not modelled either, because stored hashes all come from `argon2.hash`.
- HTTP plumbing is not modelled: Express, routes, headers, the streaming of the workbook, and the 500 answers of a failed query or a lost connection. Only the constraint violations of a write lead to a 500 in the model.
- Clock and locale: timestamps are integers supplied by the caller. The export keeps the timestamp instead of its `toLocaleString` text.
- MySQL details:
  - The default collation compares `usuario` and `email` case- and accent-insensitively (`José` and `Jose` collide in the unique index and match each other at login); the model compares them exactly.
  - DECIMAL columns round to 8 (coordinates) or 2 (distance) decimals; the model stores the values exactly and only bounds them.
  - Path parameters and `id_clase` arrive as text and are converted by the database; the model takes them as integers.
  - `createdAt` and `updatedAt` are not modelled.
  - Rows with equal timestamps come back in an order MySQL does not fix. `Query.OrderDesc` keeps storage order among them (`Query.OrderDescKeepsTies`), but the handlers' contracts promise only the sort and the permutation.
- The export's `'N/A'` rule for the distance is applied to the number. MySQL returns DECIMAL values as text, so a stored distance of 0 actually prints as `0.00`.
- An auto-increment counter consumed by a failed insert is not modelled: a refused row leaves the counter where it was.
- Query-string arrays (`?claseId=1&claseId=2`) and non-text JSON values for text fields are not modelled. Neither are numeric fields sent as text (form-encoded bodies, or JSON strings): a latitude of `"0"` is truthy and passes the `crearClase` gate, while the model's `Given(0.0)` is refused with 400.
- The `fecha` filter of the listing only logs a warning and does not change the query, so it is not a parameter.
- `getClasePorId` reads `req.docenteId`, which the middleware never sets (it sets `req.docente`). The model takes the teacher's id as a parameter, as the lookup evidently intends. `crearClase2` reads `req.user.id` and is not routed; it too takes the id as a parameter.
- The frontend, `sync`, the database configuration and the seeding script are not part of this model.
