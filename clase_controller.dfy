/** The class handlers: creating a class session (two variants with different
    input rules) and the teacher's lookups of active classes. */
module ClaseController {
  import opened Js
  import opened Http
  import opened Query
  import opened ClaseModel
  import opened Database

  /** The body of a class-creation request. */
  datatype NewClase = NewClase(
    titulo: Field<string>,
    descripcion: Field<string>,
    latitud: Field<real>,
    longitud: Field<real>)

  const MsgObligatorios := "El título y la ubicación son obligatorios"
  const MsgCreada := "Clase creada correctamente"
  const MsgServidor := "Error en el servidor"
  const MsgObligatorios2 := "Título y ubicación son obligatorios"
  const MsgCreada2 := "Clase creada exitosamente"
  const MsgServidor2 := "Error interno del servidor al crear la clase"
  const MsgObtenidas := "Clases obtenidas correctamente"
  const MsgNoEncontrada := "Clase no encontrada"
  const MsgObtenida := "Clase obtenida correctamente"

  /** `crearClase`'s input rule: title and both coordinates truthy, so a
      coordinate of 0 is refused. */
  predicate AcceptedByCrearClase(body: NewClase) {
    TruthyText(body.titulo) && TruthyNumber(body.latitud) && TruthyNumber(body.longitud)
  }

  /** `crearClase2`'s input rule: a truthy title and coordinates that are not
      `undefined`; 0 and `null` pass. */
  predicate AcceptedByCrearClase2(body: NewClase) {
    TruthyText(body.titulo) && !body.latitud.Missing? && !body.longitud.Missing?
  }

  /** A zero coordinate separates the two rules. */
  lemma ZeroCoordinateSeparatesRules(body: NewClase)
    requires TruthyText(body.titulo) && body.longitud.Given?
    requires body.latitud == Given(0.0)
    ensures !AcceptedByCrearClase(body) && AcceptedByCrearClase2(body)
  {
  }

  /** `crearClase` for the teacher the token names, at clock reading `now`. The
      new class takes `estado`'s default; a row the table refuses (an oversized
      title, out-of-range coordinates) answers 500 and nothing is stored. */
  method CrearClase(db: Store, docenteId: int, body: NewClase, now: int) returns (r: Reply<Clase>)
    requires db.Valid()
    modifies db`clases, db`nextClaseId
    ensures db.Valid()
    ensures !AcceptedByCrearClase(body) ==>
      r == Failure(BadRequest, MsgObligatorios)
      && db.clases == old(db.clases) && db.nextClaseId == old(db.nextClaseId)
    ensures AcceptedByCrearClase(body) ==>
      var row := Clase(old(db.nextClaseId), docenteId, body.latitud.value, body.longitud.value, now,
                       body.titulo.value, OrNull(body.descripcion), DefaultEstado);
      if ClaseInsertable(db.docentes, row) then
        r == Success(Created, MsgCreada, row)
        && db.clases == old(db.clases) + [row] && db.nextClaseId == old(db.nextClaseId) + 1
      else
        r == Failure(ServerError, MsgServidor)
        && db.clases == old(db.clases) && db.nextClaseId == old(db.nextClaseId)
  {
    if !TruthyText(body.titulo) || !TruthyNumber(body.latitud) || !TruthyNumber(body.longitud) {
      return Failure(BadRequest, MsgObligatorios);
    }
    var created := db.CreateClase(docenteId, body.titulo.value, OrNull(body.descripcion),
                                  body.latitud.value, body.longitud.value, now, None);
    if created.None? {
      return Failure(ServerError, MsgServidor);
    }
    r := Success(Created, MsgCreada, created.value);
  }

  /** `crearClase2` (not routed). A `null` coordinate passes the check but breaks
      NOT NULL, so the insert fails with 500; the new class is always active. */
  method CrearClase2(db: Store, docenteId: int, body: NewClase, now: int) returns (r: Reply<Clase>)
    requires db.Valid()
    modifies db`clases, db`nextClaseId
    ensures db.Valid()
    ensures !AcceptedByCrearClase2(body) ==>
      r == Failure(BadRequest, MsgObligatorios2)
      && db.clases == old(db.clases) && db.nextClaseId == old(db.nextClaseId)
    ensures AcceptedByCrearClase2(body) && (body.latitud.Null? || body.longitud.Null?) ==>
      r == Failure(ServerError, MsgServidor2)
      && db.clases == old(db.clases) && db.nextClaseId == old(db.nextClaseId)
    ensures AcceptedByCrearClase2(body) && body.latitud.Given? && body.longitud.Given? ==>
      var row := Clase(old(db.nextClaseId), docenteId, body.latitud.value, body.longitud.value, now,
                       body.titulo.value, OrNull(body.descripcion), true);
      if ClaseInsertable(db.docentes, row) then
        r == Success(Created, MsgCreada2, row)
        && db.clases == old(db.clases) + [row] && db.nextClaseId == old(db.nextClaseId) + 1
      else
        r == Failure(ServerError, MsgServidor2)
        && db.clases == old(db.clases) && db.nextClaseId == old(db.nextClaseId)
  {
    if !TruthyText(body.titulo) || body.latitud.Missing? || body.longitud.Missing? {
      return Failure(BadRequest, MsgObligatorios2);
    }
    if body.latitud.Null? || body.longitud.Null? {
      return Failure(ServerError, MsgServidor2);
    }
    var created := db.CreateClase(docenteId, body.titulo.value, OrNull(body.descripcion),
                                  body.latitud.value, body.longitud.value, now, Some(true));
    if created.None? {
      return Failure(ServerError, MsgServidor2);
    }
    r := Success(Created, MsgCreada2, created.value);
  }

  function ActiveOf(docenteId: int): Clase -> bool {
    (c: Clase) => c.idDocente == docenteId && c.estado
  }

  function FechaCreacion(c: Clase): int {
    c.fechaCreacion
  }

  /** `getClasesPorDocente`: exactly the teacher's active classes, each as often
      as stored, newest first. */
  function ClasesPorDocente(cs: seq<Clase>, docenteId: int): (r: Reply<seq<Clase>>)
    ensures r.Success? && r.status == Ok && r.message == MsgObtenidas
    ensures forall c :: multiset(r.data)[c] == if c.idDocente == docenteId && c.estado then multiset(cs)[c] else 0
    ensures forall i :: 0 <= i < |r.data| ==> r.data[i].idDocente == docenteId && r.data[i].estado
    ensures SortedDesc(r.data, FechaCreacion)
  {
    var selected := FindAll(cs, ActiveOf(docenteId));
    var ordered := OrderDesc(selected, FechaCreacion);
    PermutationKeeps(selected, ordered, ActiveOf(docenteId));
    Success(Ok, MsgObtenidas, ordered)
  }

  /** `getClasePorId`: the class with that key, if it belongs to the teacher and
      is active; otherwise 404. */
  function ClasePorId(cs: seq<Clase>, id: int, docenteId: int): (r: Reply<Clase>)
    ensures r.Failure? <==> forall i :: 0 <= i < |cs| ==> !(cs[i].id == id && cs[i].idDocente == docenteId && cs[i].estado)
    ensures r.Failure? ==> r == Failure(NotFound, MsgNoEncontrada)
    ensures r.Success? ==>
      && r.status == Ok && r.message == MsgObtenida
      && r.data in cs && r.data.id == id && r.data.idDocente == docenteId && r.data.estado
  {
    match FindOne(cs, (c: Clase) => c.id == id && c.idDocente == docenteId && c.estado)
    case None => Failure(NotFound, MsgNoEncontrada)
    case Some(c) => Success(Ok, MsgObtenida, c)
  }

  /** The single lookup agrees with the listing: a class is found by key
      exactly when the teacher's listing contains a class with that key. */
  lemma ClasePorIdAgreesWithListing(cs: seq<Clase>, id: int, docenteId: int)
    ensures ClasePorId(cs, id, docenteId).Success? <==>
      exists c :: c in ClasesPorDocente(cs, docenteId).data && c.id == id
  {
    var listed := ClasesPorDocente(cs, docenteId).data;
    if ClasePorId(cs, id, docenteId).Success? {
      var c := ClasePorId(cs, id, docenteId).data;
      assert multiset(listed)[c] == multiset(cs)[c];
      assert c in multiset(cs);
      assert c in listed;
    } else {
      forall c | c in listed
        ensures c.id != id
      {
        assert c in multiset(listed);
        assert c in multiset(cs);
      }
    }
  }
}
