/** The `docentes` table (one row per teacher account) and its constraints. */
module DocenteModel {

  /** A row; `id` is the auto-increment primary key `id_docente`, `contrasena`
      holds the password hash. */
  datatype Docente = Docente(
    id: int,
    usuario: string,
    contrasena: string,
    nombre: string,
    apellido: string,
    email: string,
    estado: bool)

  /** `usuario` is STRING(50); the other text columns are STRING(100). */
  const UsuarioLength: nat := 50
  const TextLength: nat := 100

  /** `estado` when an insert does not give it. */
  const DefaultEstado: bool := true

  /** The per-row constraints: the column sizes that MySQL enforces and the
      `isEmail` validation that Sequelize runs before writing. NOT NULL holds by
      construction. */
  predicate FitsColumns(d: Docente, isEmail: string -> bool) {
    && |d.usuario| <= UsuarioLength
    && |d.contrasena| <= TextLength
    && |d.nombre| <= TextLength
    && |d.apellido| <= TextLength
    && |d.email| <= TextLength
    && isEmail(d.email)
  }

  /** The primary key and the two unique indexes, `usuario` and `email`, as a
      table invariant. */
  predicate UniqueKeys(rows: seq<Docente>) {
    forall i, j :: 0 <= i < j < |rows| ==>
      rows[i].id != rows[j].id && rows[i].usuario != rows[j].usuario && rows[i].email != rows[j].email
  }

  /** Whether `row` may replace (or, with `k == |rows|`, join) the rows other
      than position `k` without breaking a unique index. */
  predicate LoginsFreeFor(rows: seq<Docente>, k: nat, row: Docente) {
    forall j :: 0 <= j < |rows| && j != k ==>
      rows[j].id != row.id && rows[j].usuario != row.usuario && rows[j].email != row.email
  }

  /** A row that keeps its key, login name and email never clashes with the
      other rows of a table whose keys are unique. */
  lemma SameKeysStayFree(rows: seq<Docente>, k: nat, row: Docente)
    requires UniqueKeys(rows) && k < |rows|
    requires row.id == rows[k].id && row.usuario == rows[k].usuario && row.email == rows[k].email
    ensures LoginsFreeFor(rows, k, row)
  {
    forall j | 0 <= j < |rows| && j != k
      ensures rows[j].id != row.id && rows[j].usuario != row.usuario && rows[j].email != row.email
    {
      if j < k {
        assert rows[j].id != rows[k].id;
      } else {
        assert rows[k].id != rows[j].id;
      }
    }
  }

  /** The WHERE clauses the handlers look teachers up by. */
  function ById(id: int): Docente -> bool {
    (d: Docente) => d.id == id
  }

  function ByUsuario(usuario: string): Docente -> bool {
    (d: Docente) => d.usuario == usuario
  }

  function ByEmail(email: string): Docente -> bool {
    (d: Docente) => d.email == email
  }

  /** A teacher as responses show it: every attribute except `contrasena`. */
  datatype DocenteView = DocenteView(
    id: int,
    usuario: string,
    nombre: string,
    apellido: string,
    email: string,
    estado: bool)

  function View(d: Docente): DocenteView {
    DocenteView(d.id, d.usuario, d.nombre, d.apellido, d.email, d.estado)
  }

  /** The projection does not depend on the stored hash. */
  lemma ViewHidesPassword(d: Docente, other: string)
    ensures View(d.(contrasena := other)) == View(d)
  {
  }
}
