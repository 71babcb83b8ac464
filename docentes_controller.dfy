/** The teacher-account handlers: listing and looking up accounts without
    their password hashes, registering an account, updating it field by field,
    and deactivating it. */
module DocentesController {
  import opened Js
  import opened Http
  import opened Query
  import opened DocenteModel
  import opened Database
  import AuthController
  import AuthMiddleware

  /** The body of a registration. */
  datatype NewDocente = NewDocente(
    usuario: Field<string>,
    contrasena: Field<string>,
    nombre: Field<string>,
    apellido: Field<string>,
    email: Field<string>)

  /** The body of an update; `usuario` cannot be changed. */
  datatype DocenteChanges = DocenteChanges(
    nombre: Field<string>,
    apellido: Field<string>,
    email: Field<string>,
    contrasena: Field<string>)

  const MsgServidor := "Error en el servidor"
  const MsgObtenidos := "Docentes obtenidos correctamente"
  const MsgNoEncontrado := "Docente no encontrado"
  const MsgObtenido := "Docente obtenido correctamente"
  const MsgRequeridos := "Todos los campos son requeridos: usuario, contrasena, nombre, apellido, email"
  const MsgUsuarioEnUso := "El nombre de usuario ya está en uso"
  const MsgEmailEnUso := "El correo electrónico ya está en uso"
  const MsgCreado := "Docente creado correctamente"
  const MsgActualizado := "Docente actualizado correctamente"
  const MsgDesactivado := "Docente desactivado correctamente"

  /** `getAllDocentes`: every account, deactivated ones included, in storage
      order, each without its password hash. */
  function GetAllDocentes(ds: seq<Docente>): (r: Reply<seq<DocenteView>>)
    ensures r.Success? && r.status == Ok && r.message == MsgObtenidos
    ensures |r.data| == |ds|
    ensures forall i :: 0 <= i < |ds| ==> r.data[i] == View(ds[i])
  {
    Success(Ok, MsgObtenidos, seq(|ds|, i requires 0 <= i < |ds| => View(ds[i])))
  }

  /** `getDocenteById`: the account with that key, without its hash, whatever
      its `estado`; otherwise 404. */
  function GetDocenteById(ds: seq<Docente>, id: int): (r: Reply<DocenteView>)
    ensures r.Failure? <==> forall i :: 0 <= i < |ds| ==> ds[i].id != id
    ensures r.Failure? ==> r == Failure(NotFound, MsgNoEncontrado)
    ensures r.Success? ==>
      r.status == Ok && r.message == MsgObtenido && exists i :: 0 <= i < |ds| && ds[i].id == id && r.data == View(ds[i])
  {
    match FindOne(ds, ById(id))
    case None => Failure(NotFound, MsgNoEncontrado)
    case Some(d) => Success(Ok, MsgObtenido, View(d))
  }

  predicate CompleteRegistration(body: NewDocente) {
    && TruthyText(body.usuario)
    && TruthyText(body.contrasena)
    && TruthyText(body.nombre)
    && TruthyText(body.apellido)
    && TruthyText(body.email)
  }

  predicate UsuarioTaken(ds: seq<Docente>, usuario: string) {
    exists i :: 0 <= i < |ds| && ds[i].usuario == usuario
  }

  predicate EmailTaken(ds: seq<Docente>, email: string) {
    exists i :: 0 <= i < |ds| && ds[i].email == email
  }

  /** `createDocente`; `hash` is `argon2.hash`. The login name is checked before
      the email, and only the hash of the password is stored. */
  method CreateDocente(db: Store, body: NewDocente, hash: string -> string) returns (r: Reply<DocenteView>)
    requires db.Valid()
    modifies db`docentes, db`nextDocenteId
    ensures db.Valid()
    ensures !CompleteRegistration(body) ==>
      r == Failure(BadRequest, MsgRequeridos)
      && db.docentes == old(db.docentes) && db.nextDocenteId == old(db.nextDocenteId)
    ensures CompleteRegistration(body) && UsuarioTaken(old(db.docentes), body.usuario.value) ==>
      r == Failure(BadRequest, MsgUsuarioEnUso)
      && db.docentes == old(db.docentes) && db.nextDocenteId == old(db.nextDocenteId)
    ensures CompleteRegistration(body) && !UsuarioTaken(old(db.docentes), body.usuario.value)
            && EmailTaken(old(db.docentes), body.email.value) ==>
      r == Failure(BadRequest, MsgEmailEnUso)
      && db.docentes == old(db.docentes) && db.nextDocenteId == old(db.nextDocenteId)
    ensures CompleteRegistration(body) && !UsuarioTaken(old(db.docentes), body.usuario.value)
            && !EmailTaken(old(db.docentes), body.email.value) ==>
      var row := Docente(old(db.nextDocenteId), body.usuario.value, hash(body.contrasena.value),
                         body.nombre.value, body.apellido.value, body.email.value, DefaultEstado);
      if DocenteModel.FitsColumns(row, db.isEmail) then
        r == Success(Created, MsgCreado, View(row))
        && db.docentes == old(db.docentes) + [row] && db.nextDocenteId == old(db.nextDocenteId) + 1
      else
        r == Failure(ServerError, MsgServidor)
        && db.docentes == old(db.docentes) && db.nextDocenteId == old(db.nextDocenteId)
  {
    if !TruthyText(body.usuario) || !TruthyText(body.contrasena) || !TruthyText(body.nombre)
       || !TruthyText(body.apellido) || !TruthyText(body.email) {
      return Failure(BadRequest, MsgRequeridos);
    }
    var existingUser := FindOne(db.docentes, ByUsuario(body.usuario.value));
    if existingUser.Some? {
      return Failure(BadRequest, MsgUsuarioEnUso);
    }
    var existingEmail := FindOne(db.docentes, ByEmail(body.email.value));
    if existingEmail.Some? {
      return Failure(BadRequest, MsgEmailEnUso);
    }
    var hashedPassword := hash(body.contrasena.value);
    var created := db.CreateDocente(body.usuario.value, hashedPassword, body.nombre.value,
                                    body.apellido.value, body.email.value);
    if created.None? {
      return Failure(ServerError, MsgServidor);
    }
    r := Success(Created, MsgCreado, View(created.value));
  }

  /** The account after an update: each of the four attributes replaced when its
      input is truthy (the password by its hash), everything else kept. */
  function Amended(d: Docente, changes: DocenteChanges, hash: string -> string): (e: Docente)
    ensures e.id == d.id && e.usuario == d.usuario && e.estado == d.estado
  {
    d.(nombre := if TruthyText(changes.nombre) then changes.nombre.value else d.nombre,
       apellido := if TruthyText(changes.apellido) then changes.apellido.value else d.apellido,
       email := if TruthyText(changes.email) then changes.email.value else d.email,
       contrasena := if TruthyText(changes.contrasena) then hash(changes.contrasena.value) else d.contrasena)
  }

  /** An update that gives no truthy field leaves the account as it was. */
  lemma EmptyUpdateKeepsAccount(d: Docente, changes: DocenteChanges, hash: string -> string)
    requires !TruthyText(changes.nombre) && !TruthyText(changes.apellido)
    requires !TruthyText(changes.email) && !TruthyText(changes.contrasena)
    ensures Amended(d, changes, hash) == d
  {
  }

  /** `updateDocente`. Only the account with that key changes; 500 when the
      amended row breaks a constraint (an email already in use, an invalid
      email, an oversized value) and nothing is written. */
  method UpdateDocente(db: Store, id: int, changes: DocenteChanges, hash: string -> string)
    returns (r: Reply<DocenteView>)
    requires db.Valid()
    modifies db`docentes
    ensures db.Valid()
    ensures FirstIndex(old(db.docentes), ById(id)).None? ==>
      r == Failure(NotFound, MsgNoEncontrado) && db.docentes == old(db.docentes)
    ensures FirstIndex(old(db.docentes), ById(id)).Some? ==>
      var k := FirstIndex(old(db.docentes), ById(id)).value;
      var after := Amended(old(db.docentes)[k], changes, hash);
      if DocenteModel.FitsColumns(after, db.isEmail) && LoginsFreeFor(old(db.docentes), k, after) then
        r == Success(Ok, MsgActualizado, View(after)) && db.docentes == old(db.docentes)[k := after]
      else
        r == Failure(ServerError, MsgServidor) && db.docentes == old(db.docentes)
  {
    var found := FirstIndex(db.docentes, ById(id));
    if found.None? {
      return Failure(NotFound, MsgNoEncontrado);
    }
    var k := found.value;
    var docente := db.docentes[k];
    if TruthyText(changes.nombre) { docente := docente.(nombre := changes.nombre.value); }
    if TruthyText(changes.apellido) { docente := docente.(apellido := changes.apellido.value); }
    if TruthyText(changes.email) { docente := docente.(email := changes.email.value); }
    if TruthyText(changes.contrasena) {
      docente := docente.(contrasena := hash(changes.contrasena.value));
    }
    var saved := db.SaveDocente(k, docente);
    if !saved {
      return Failure(ServerError, MsgServidor);
    }
    r := Success(Ok, MsgActualizado, View(docente));
  }

  /** `deleteDocente`: a soft delete. The row stays, with `estado` false, and
      the save cannot fail since no key or checked column changes. */
  method DeleteDocente(db: Store, id: int) returns (r: Reply<()>)
    requires db.Valid()
    modifies db`docentes
    ensures db.Valid()
    ensures FirstIndex(old(db.docentes), ById(id)).None? ==>
      r == Failure(NotFound, MsgNoEncontrado) && db.docentes == old(db.docentes)
    ensures FirstIndex(old(db.docentes), ById(id)).Some? ==>
      var k := FirstIndex(old(db.docentes), ById(id)).value;
      r == Success(Ok, MsgDesactivado, ())
      && db.docentes == old(db.docentes)[k := old(db.docentes)[k].(estado := false)]
    ensures |db.docentes| == |old(db.docentes)|
  {
    var found := FirstIndex(db.docentes, ById(id));
    if found.None? {
      return Failure(NotFound, MsgNoEncontrado);
    }
    var k := found.value;
    var docente := db.docentes[k].(estado := false);
    SameKeysStayFree(db.docentes, k, docente);
    var saved := db.SaveDocente(k, docente);
    assert saved;
    r := Success(Ok, MsgDesactivado, ());
  }

  /** The row a successful registration appends. */
  function Registered(id: int, body: NewDocente, hash: string -> string): Docente
    requires CompleteRegistration(body)
  {
    Docente(id, body.usuario.value, hash(body.contrasena.value), body.nombre.value, body.apellido.value,
            body.email.value, DefaultEstado)
  }

  /** A teacher who has just registered can log in with the same login name and
      password, provided `argon2.verify` accepts a password against its own
      hash, and the session names the new account. */
  lemma RegisteredTeacherCanLogIn(ds: seq<Docente>, id: int, body: NewDocente, hash: string -> string,
                                  passwordMatches: (string, string) -> bool, sign: AuthMiddleware.Claims -> string)
    requires CompleteRegistration(body) && !UsuarioTaken(ds, body.usuario.value)
    requires passwordMatches(hash(body.contrasena.value), body.contrasena.value)
    ensures var row := Registered(id, body, hash);
      AuthController.Login(ds + [row], AuthController.Credentials(body.usuario, body.contrasena), passwordMatches, sign)
      == Success(Ok, AuthController.MsgLoginExitoso,
                 AuthController.Session(AuthController.SessionOf(row), sign(AuthController.TokenClaims(row))))
  {
    var row := Registered(id, body, hash);
    var rows := ds + [row];
    assert rows[|ds|] == row;
    assert forall j :: 0 <= j < |ds| ==> rows[j].usuario != body.usuario.value;
    assert FirstIndex(rows, ByUsuario(body.usuario.value)) == Some(|ds|);
  }
}
