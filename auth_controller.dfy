/** `login` and `checkAuth`: the session handlers. Both only read the
    `docentes` table. */
module AuthController {
  import opened Js
  import opened Http
  import opened Query
  import opened DocenteModel
  import opened AuthMiddleware

  /** The body of a login request. */
  datatype Credentials = Credentials(usuario: Field<string>, contrasena: Field<string>)

  /** The teacher as the session answers show it. */
  datatype SessionDocente = SessionDocente(id: int, usuario: string, nombre: string, apellido: string, email: string)

  /** The payload of a successful login. */
  datatype Session = Session(docente: SessionDocente, token: string)

  const MsgRequeridos := "Usuario y contraseña son requeridos"
  const MsgCredenciales := "Credenciales inválidas"
  const MsgLoginExitoso := "Inicio de sesión exitoso"
  const MsgNoEncontrado := "Docente no encontrado"
  const MsgSesionValida := "Sesión válida"

  function SessionOf(d: Docente): SessionDocente {
    SessionDocente(d.id, d.usuario, d.nombre, d.apellido, d.email)
  }

  /** The claims `generateToken` signs: the teacher's id and login name. */
  function TokenClaims(d: Docente): (c: Claims)
    ensures c.id == d.id && c.usuario == d.usuario
  {
    Claims(d.id, d.usuario)
  }

  /** `generateToken`: `sign` is `jwt.sign` with the server's secret and expiry. */
  function GenerateToken(d: Docente, sign: Claims -> string): (token: string)
    ensures token == sign(Claims(d.id, d.usuario))
  {
    sign(TokenClaims(d))
  }

  /** With a `verify` that undoes `sign`, a generated token decodes to the
      account's id and login name and to nothing else: the password hash,
      the names and the email are not in it. */
  lemma GeneratedTokenVerifies(d: Docente, e: Docente, sign: Claims -> string, verify: string -> Option<Claims>)
    requires forall c :: verify(sign(c)) == Some(c)
    requires d.id == e.id && d.usuario == e.usuario
    ensures verify(GenerateToken(d, sign)) == Some(Claims(d.id, d.usuario))
    ensures GenerateToken(d, sign) == GenerateToken(e, sign)
  {
  }

  /** `ds[i]` is the first account with login name `u`: the one `findOne` returns. */
  predicate FirstWithUsuario(ds: seq<Docente>, u: string, i: int) {
    0 <= i < |ds| && ds[i].usuario == u && forall j :: 0 <= j < i ==> ds[j].usuario != u
  }

  /** Only the position `findOne` picks is the first with that login name. */
  lemma FirstWithUsuarioIsFound(ds: seq<Docente>, u: string)
    ensures forall i :: FirstWithUsuario(ds, u, i) ==> FirstIndex(ds, ByUsuario(u)) == Some(i)
  {
  }

  /** `login`; `passwordMatches(hash, plain)` is `argon2.verify`. */
  function Login(ds: seq<Docente>, body: Credentials, passwordMatches: (string, string) -> bool,
                 sign: Claims -> string): (r: Reply<Session>)
    ensures !(TruthyText(body.usuario) && TruthyText(body.contrasena)) ==> r == Failure(BadRequest, MsgRequeridos)
    ensures TruthyText(body.usuario) && TruthyText(body.contrasena) && r.Failure? ==>
      r == Failure(Unauthorized, MsgCredenciales)
    ensures TruthyText(body.usuario) && TruthyText(body.contrasena) ==>
      (r.Success? <==>
        exists i :: FirstWithUsuario(ds, body.usuario.value, i)
          && passwordMatches(ds[i].contrasena, body.contrasena.value))
    ensures r.Success? ==>
      exists i :: FirstWithUsuario(ds, body.usuario.value, i)
        && r == Success(Ok, MsgLoginExitoso, Session(SessionOf(ds[i]), sign(TokenClaims(ds[i]))))
  {
    if !TruthyText(body.usuario) || !TruthyText(body.contrasena) then Failure(BadRequest, MsgRequeridos)
    else
      FirstWithUsuarioIsFound(ds, body.usuario.value);
      match FirstIndex(ds, ByUsuario(body.usuario.value))
      case None => Failure(Unauthorized, MsgCredenciales)
      case Some(k) =>
        assert FirstWithUsuario(ds, body.usuario.value, k);
        if !passwordMatches(ds[k].contrasena, body.contrasena.value) then Failure(Unauthorized, MsgCredenciales)
        else Success(Ok, MsgLoginExitoso, Session(SessionOf(ds[k]), GenerateToken(ds[k], sign)))
  }

  /** `checkAuth`: looks up the teacher the middleware admitted. */
  function CheckAuth(ds: seq<Docente>, claims: Claims): (r: Reply<SessionDocente>)
    ensures r.Failure? <==> forall i :: 0 <= i < |ds| ==> ds[i].id != claims.id
    ensures r.Failure? ==> r == Failure(NotFound, MsgNoEncontrado)
    ensures r.Success? ==>
      exists i :: 0 <= i < |ds| && ds[i].id == claims.id && r == Success(Ok, MsgSesionValida, SessionOf(ds[i]))
  {
    match FindOne(ds, ById(claims.id))
    case None => Failure(NotFound, MsgNoEncontrado)
    case Some(d) => Success(Ok, MsgSesionValida, SessionOf(d))
  }

  /** With a token scheme where `verify` undoes `sign` and tokens carry no space,
      the token a login hands out, sent back as `Bearer <token>`, passes the
      middleware with the teacher's own claims, and `checkAuth` then answers with
      the same teacher the login did. */
  lemma LoginThenCheckAuth(ds: seq<Docente>, body: Credentials, passwordMatches: (string, string) -> bool,
                           sign: Claims -> string, verify: string -> Option<Claims>)
    requires UniqueKeys(ds)
    requires forall c :: verify(sign(c)) == Some(c) && ' ' !in sign(c)
    requires Login(ds, body, passwordMatches, sign).Success?
    ensures var s := Login(ds, body, passwordMatches, sign).data;
      && Authenticate(Some("Bearer " + s.token), verify) == Admit(Claims(s.docente.id, s.docente.usuario))
      && CheckAuth(ds, Claims(s.docente.id, s.docente.usuario)) == Success(Ok, MsgSesionValida, s.docente)
  {
    var s := Login(ds, body, passwordMatches, sign).data;
    var i :| FirstWithUsuario(ds, body.usuario.value, i)
      && Login(ds, body, passwordMatches, sign) == Success(Ok, MsgLoginExitoso, Session(SessionOf(ds[i]), sign(TokenClaims(ds[i]))));
    assert s.docente == SessionOf(ds[i]) && s.token == sign(TokenClaims(ds[i]));
    TokenPassesMiddleware(TokenClaims(ds[i]), sign, verify);
    CheckAuthFindsAccount(ds, i);
  }

  /** A signed token sent as `Bearer <token>` is admitted with its own claims. */
  lemma TokenPassesMiddleware(c: Claims, sign: Claims -> string, verify: string -> Option<Claims>)
    requires verify(sign(c)) == Some(c) && ' ' !in sign(c)
    ensures Authenticate(Some("Bearer " + sign(c)), verify) == Admit(c)
  {
    assert IsBearer("Bearer");
    BearerHeader("Bearer", sign(c));
    assert "Bearer" + " " + sign(c) == "Bearer " + sign(c);
  }

  /** With unique keys, `checkAuth` on an account's claims answers with that account. */
  lemma CheckAuthFindsAccount(ds: seq<Docente>, i: nat)
    requires UniqueKeys(ds) && i < |ds|
    ensures CheckAuth(ds, TokenClaims(ds[i])) == Success(Ok, MsgSesionValida, SessionOf(ds[i]))
  {
    var c := TokenClaims(ds[i]);
    assert forall j :: 0 <= j < |ds| && j != i ==> ds[j].id != c.id;
    assert FirstIndex(ds, ById(c.id)) == Some(i);
  }

  /** `login` never looks at `estado`: soft-deleting a teacher leaves every login
      answer as it was. */
  lemma DeactivatedTeacherStillLogsIn(ds: seq<Docente>, k: nat, body: Credentials,
                                      passwordMatches: (string, string) -> bool, sign: Claims -> string)
    requires k < |ds|
    ensures Login(ds[k := ds[k].(estado := false)], body, passwordMatches, sign) == Login(ds, body, passwordMatches, sign)
  {
    if TruthyText(body.usuario) && TruthyText(body.contrasena) {
      FirstIndexUpdate(ds, k, ds[k].(estado := false), ByUsuario(body.usuario.value));
    }
  }
}
