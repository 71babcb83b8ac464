/** The attendance handlers: the proximity-gated check-in a student submits
    after scanning a class QR code, and the teacher's listing and spreadsheet
    export of the check-ins of their own classes. */
module AsistenciaController {
  import opened Js
  import opened Http
  import opened Query
  import opened ClaseModel
  import opened AsistenciaModel
  import opened Database

  // ---------------------------------------------------------------------------
  // registrarAsistencia
  // ---------------------------------------------------------------------------

  /** The body of a check-in. */
  datatype CheckIn = CheckIn(
    classId: Field<int>,
    legajo: Field<string>,
    nombre: Field<string>,
    apellido: Field<string>,
    dni: Field<string>,
    latitud: Field<real>,
    longitud: Field<real>)

  datatype Point = Point(latitude: real, longitude: real)

  const MsgObligatorios := "Todos los campos son obligatorios."
  const MsgClaseNoEncontrada := "Clase no encontrada."
  /** The start of the too-far answer; the distance printed after it is not modelled. */
  const MsgDemasiadoLejos := "Estás demasiado lejos del aula para registrar asistencia."
  const MsgRegistrada := "Asistencia registrada correctamente."
  const MsgErrorRegistrar := "Error interno del servidor al registrar asistencia."

  /** The radius in metres when `DISTANCIA_METROS` is unset or empty. */
  const DefaultThreshold: int := 50

  /** Every one of the seven fields is truthy: no 0, no empty text. */
  predicate Complete(req: CheckIn) {
    && TruthyInt(req.classId)
    && TruthyText(req.legajo)
    && TruthyText(req.nombre)
    && TruthyText(req.apellido)
    && TruthyText(req.dni)
    && TruthyNumber(req.latitud)
    && TruthyNumber(req.longitud)
  }

  /** `process.env.DISTANCIA_METROS || 50`, with the variable given as a number
      (`None` when unset or empty). */
  function Threshold(env: Option<int>): (umbral: int)
    ensures env.None? ==> umbral == DefaultThreshold
    ensures env.Some? ==> umbral == env.value
  {
    if env.Some? then env.value else DefaultThreshold
  }

  /** `Clase.findByPk(id)`: by primary key alone, whatever the class's `estado`. */
  function FindClase(cs: seq<Clase>, id: int): (r: Option<Clase>)
    ensures r.Some? <==> HasClase(cs, id)
    ensures r.Some? ==> r.value in cs && r.value.id == id
  {
    FindOne(cs, (c: Clase) => c.id == id)
  }

  /** The record an accepted check-in stores. */
  function Accepted(id: int, req: CheckIn, fechaHora: int, d: nat): Asistencia
    requires Complete(req)
  {
    Asistencia(id, req.classId.value, req.legajo.value, req.nombre.value, req.apellido.value, req.dni.value,
               fechaHora, req.latitud.value, req.longitud.value, Some(d), true)
  }

  /** The gates a check-in passes before anything is written: the answer a
      refused check-in gets, or the distance of an accepted one. */
  datatype Gate = Refused(reply: Reply<Asistencia>) | Passed(distancia: nat)

  function CheckGates(cs: seq<Clase>, req: CheckIn, env: Option<int>, distance: (Point, Point) -> nat): (g: Gate)
    ensures g.Refused? ==> g.reply.Failure?
    ensures !Complete(req) ==> g == Refused(Failure(BadRequest, MsgObligatorios))
    ensures Complete(req) && !HasClase(cs, req.classId.value) ==> g == Refused(Failure(NotFound, MsgClaseNoEncontrada))
    ensures Complete(req) && HasClase(cs, req.classId.value) ==>
      var c := FindClase(cs, req.classId.value).value;
      var d := distance(Point(req.latitud.value, req.longitud.value), Point(c.latitud, c.longitud));
      g == if d <= Threshold(env) then Passed(d) else Refused(Failure(BadRequest, MsgDemasiadoLejos))
  {
    if !Complete(req) then Refused(Failure(BadRequest, MsgObligatorios))
    else match FindClase(cs, req.classId.value)
      case None => Refused(Failure(NotFound, MsgClaseNoEncontrada))
      case Some(c) =>
        var d := distance(Point(req.latitud.value, req.longitud.value), Point(c.latitud, c.longitud));
        if d <= Threshold(env) then Passed(d) else Refused(Failure(BadRequest, MsgDemasiadoLejos))
  }

  /** `registrarAsistencia`. `distance` is `geolib.getDistance` (whole metres),
      `now` the clock reading, `env` the configured radius. Only a check-in that
      passes every gate writes, and it writes exactly one row; every rejection
      leaves the table as it was. */
  method RegistrarAsistencia(db: Store, req: CheckIn, env: Option<int>, distance: (Point, Point) -> nat, now: int)
    returns (r: Reply<Asistencia>)
    requires db.Valid()
    modifies db`asistencias, db`nextAsistenciaId
    ensures db.Valid()
    ensures match CheckGates(db.clases, req, env, distance)
      case Refused(reply) =>
        r == reply && db.asistencias == old(db.asistencias) && db.nextAsistenciaId == old(db.nextAsistenciaId)
      case Passed(d) =>
        var row := Accepted(old(db.nextAsistenciaId), req, now, d);
        if AsistenciaModel.FitsColumns(row) then
          r == Success(Created, MsgRegistrada, row)
          && db.asistencias == old(db.asistencias) + [row] && db.nextAsistenciaId == old(db.nextAsistenciaId) + 1
        else
          r == Failure(ServerError, MsgErrorRegistrar)
          && db.asistencias == old(db.asistencias) && db.nextAsistenciaId == old(db.nextAsistenciaId)
    ensures AllValidated(old(db.asistencias)) ==> AllValidated(db.asistencias)
  {
    if !Complete(req) {
      return Failure(BadRequest, MsgObligatorios);
    }
    var clase := FindClase(db.clases, req.classId.value);
    if clase.None? {
      return Failure(NotFound, MsgClaseNoEncontrada);
    }
    var distanciaMetros := distance(Point(req.latitud.value, req.longitud.value),
                                    Point(clase.value.latitud, clase.value.longitud));
    var umbral := Threshold(env);
    var estaDentroDelRadio := distanciaMetros <= umbral;
    if !estaDentroDelRadio {
      return Failure(BadRequest, MsgDemasiadoLejos);
    }
    assert CheckGates(db.clases, req, env, distance) == Passed(distanciaMetros);
    ghost var before := db.asistencias;
    ghost var row := Accepted(db.nextAsistenciaId, req, now, distanciaMetros);
    assert HasClase(db.clases, row.idClase);
    var created := db.CreateAsistencia(req.classId.value, req.legajo.value, req.nombre.value, req.apellido.value,
                                       req.dni.value, req.latitud.value, req.longitud.value, Some(distanciaMetros),
                                       now, Some(estaDentroDelRadio));
    if created.None? {
      return Failure(ServerError, MsgErrorRegistrar);
    }
    assert created.value == row && db.asistencias == before + [row];
    if AllValidated(before) {
      ValidatedAppend(before, row);
    }
    r := Success(Created, MsgRegistrada, created.value);
  }

  /** The same check-in submitted twice is stored twice, under two keys: nothing
      deduplicates attendance. */
  method Resubmission(db: Store, req: CheckIn, env: Option<int>, distance: (Point, Point) -> nat,
                      now1: int, now2: int)
    returns (first: Reply<Asistencia>, second: Reply<Asistencia>)
    requires db.Valid()
    modifies db`asistencias, db`nextAsistenciaId
    ensures db.Valid()
    ensures first.Success? ==>
      && second.Success?
      && first.data.id != second.data.id
      && second.data == first.data.(id := second.data.id, fechaHora := now2)
      && db.asistencias == old(db.asistencias) + [first.data] + [second.data]
  {
    ghost var n0 := db.nextAsistenciaId;
    ghost var before := db.asistencias;
    ghost var g := CheckGates(db.clases, req, env, distance);
    first := RegistrarAsistencia(db, req, env, distance, now1);
    ghost var middle := db.asistencias;
    ghost var n1 := db.nextAsistenciaId;
    assert db.clases == old(db.clases);
    second := RegistrarAsistencia(db, req, env, distance, now2);
    assert db.clases == old(db.clases);
    assert CheckGates(db.clases, req, env, distance) == g;
    if first.Success? {
      assert g.Passed? && Complete(req);
      var row1 := Accepted(n0, req, now1, g.distancia);
      assert first.data == row1 && middle == before + [row1] && n1 == n0 + 1;
      var row2 := Accepted(n1, req, now2, g.distancia);
      assert AsistenciaModel.FitsColumns(row2);
      assert second == Success(Created, MsgRegistrada, row2);
      assert db.asistencias == before + [row1] + [row2];
    }
  }

  // ---------------------------------------------------------------------------
  // The teacher's classes and the scope of a listing
  // ---------------------------------------------------------------------------

  predicate OwnsClass(cs: seq<Clase>, docenteId: int, id: int) {
    exists i :: 0 <= i < |cs| && cs[i].idDocente == docenteId && cs[i].id == id
  }

  /** `Clase.findAll({ where: { id_docente } })` mapped to the keys: every class
      the teacher created, deactivated ones included, in storage order. */
  function OwnedClassIds(cs: seq<Clase>, docenteId: int): (ids: seq<int>)
    ensures forall id :: id in ids <==> OwnsClass(cs, docenteId, id)
    ensures |ids| <= |cs|
  {
    if cs == [] then []
    else
      var rest := OwnedClassIds(cs[1..], docenteId);
      assert forall id :: OwnsClass(cs[1..], docenteId, id) ==> OwnsClass(cs, docenteId, id) by {
        forall id | OwnsClass(cs[1..], docenteId, id)
          ensures OwnsClass(cs, docenteId, id)
        {
          var i :| 0 <= i < |cs[1..]| && cs[1..][i].idDocente == docenteId && cs[1..][i].id == id;
          assert cs[i + 1] == cs[1..][i];
        }
      }
      assert forall id ::
        (OwnsClass(cs, docenteId, id) && !(cs[0].idDocente == docenteId && cs[0].id == id)) ==>
        OwnsClass(cs[1..], docenteId, id) by {
        forall id | OwnsClass(cs, docenteId, id) && !(cs[0].idDocente == docenteId && cs[0].id == id)
          ensures OwnsClass(cs[1..], docenteId, id)
        {
          var i :| 0 <= i < |cs| && cs[i].idDocente == docenteId && cs[i].id == id;
          assert i > 0;
          assert cs[1..][i - 1] == cs[i];
        }
      }
      if cs[0].idDocente == docenteId then [cs[0].id] + rest else rest
  }

  /** The `id_clase` condition of the attendance query. */
  datatype ClassFilter = AnyOf(ids: seq<int>) | Only(id: int)

  predicate Admits(f: ClassFilter, idClase: int) {
    match f
    case AnyOf(ids) => idClase in ids
    case Only(id) => idClase == id
  }

  /** Where the owned-class check leaves a listing: the teacher has no class at
      all, asked for a class that is not theirs, or may query with `filter`. */
  datatype Scope = NoClasses | NotOwned | Within(filter: ClassFilter)

  /** A `claseId` query parameter that is present and not empty. */
  predicate Requested(claseId: Option<string>) {
    claseId.Some? && claseId.value != ""
  }

  /** The handlers' owned-class check: the condition starts as "any owned class"
      and is overwritten by the requested class once that is known to be owned.
      `parseInt` of a text without digits gives `NaN`, which no list includes. */
  method ScopeFor(cs: seq<Clase>, docenteId: int, claseId: Option<string>) returns (s: Scope)
    ensures s.NoClasses? <==> forall i :: 0 <= i < |cs| ==> cs[i].idDocente != docenteId
    ensures s.NotOwned? <==>
      !s.NoClasses? && Requested(claseId)
      && !(ParseInt(claseId.value).Some? && OwnsClass(cs, docenteId, ParseInt(claseId.value).value))
    ensures s.Within? && !Requested(claseId) ==> s.filter == AnyOf(OwnedClassIds(cs, docenteId))
    ensures s.Within? && Requested(claseId) ==> s.filter == Only(ParseInt(claseId.value).value)
    ensures s.Within? ==> forall id :: Admits(s.filter, id) ==> OwnsClass(cs, docenteId, id)
  {
    var ids := OwnedClassIds(cs, docenteId);
    forall i | 0 <= i < |cs| && cs[i].idDocente == docenteId
      ensures cs[i].id in ids
    {
      assert OwnsClass(cs, docenteId, cs[i].id);
    }
    if |ids| == 0 {
      return NoClasses;
    }
    assert OwnsClass(cs, docenteId, ids[0]) by {
      assert ids[0] in ids;
    }
    ghost var owned :| 0 <= owned < |cs| && cs[owned].idDocente == docenteId && cs[owned].id == ids[0];
    var filter := AnyOf(ids);
    if Requested(claseId) {
      var parsed := ParseInt(claseId.value);
      if !(parsed.Some? && parsed.value in ids) {
        return NotOwned;
      }
      filter := Only(parsed.value);
    }
    s := Within(filter);
  }

  // ---------------------------------------------------------------------------
  // The attendance query
  // ---------------------------------------------------------------------------

  /** A check-in as the listing returns it, with the title of its class
      (`include: [{ model: Clase, attributes: ['titulo'] }]`). */
  datatype Listed = Listed(asistencia: Asistencia, claseTitulo: Option<string>)

  /** The joined title: that of the class the check-in references, if any. */
  function TitleOf(cs: seq<Clase>, idClase: int): (t: Option<string>)
    ensures t.Some? <==> HasClase(cs, idClase)
    ensures t.Some? ==> exists i :: 0 <= i < |cs| && cs[i].id == idClase && cs[i].titulo == t.value
  {
    match FindClase(cs, idClase)
    case None => None
    case Some(c) => Some(c.titulo)
  }

  function Records(rows: seq<Listed>): (r: seq<Asistencia>)
    ensures |r| == |rows| && forall i :: 0 <= i < |rows| ==> r[i] == rows[i].asistencia
  {
    seq(|rows|, i requires 0 <= i < |rows| => rows[i].asistencia)
  }

  function Selects(f: ClassFilter): Asistencia -> bool {
    (a: Asistencia) => Admits(f, a.idClase)
  }

  function FechaHora(a: Asistencia): int {
    a.fechaHora
  }

  /** Each check-in paired with the title of its class. */
  function WithTitles(cs: seq<Clase>, rows: seq<Asistencia>): (r: seq<Listed>)
    ensures Records(r) == rows
    ensures forall i :: 0 <= i < |r| ==> r[i].claseTitulo == TitleOf(cs, r[i].asistencia.idClase)
  {
    seq(|rows|, i requires 0 <= i < |rows| => Listed(rows[i], TitleOf(cs, rows[i].idClase)))
  }

  /** `Asistencia.findAll({ where, include, order: [['fecha_hora_asistencia', 'DESC']] })`:
      exactly the check-ins of the admitted classes, each as often as stored,
      newest first, each with its class's title. */
  function Fetch(cs: seq<Clase>, rows: seq<Asistencia>, f: ClassFilter): (r: seq<Listed>)
    ensures forall a :: multiset(Records(r))[a] == if Admits(f, a.idClase) then multiset(rows)[a] else 0
    ensures forall i :: 0 <= i < |r| ==> Admits(f, r[i].asistencia.idClase)
    ensures SortedDesc(Records(r), FechaHora)
    ensures forall i :: 0 <= i < |r| ==> r[i].claseTitulo == TitleOf(cs, r[i].asistencia.idClase)
  {
    var selected := FindAll(rows, Selects(f));
    var ordered := OrderDesc(selected, FechaHora);
    PermutationKeeps(selected, ordered, Selects(f));
    WithTitles(cs, ordered)
  }

  const MsgSinClases := "El docente no tiene clases registradas."
  const MsgSinPermisoVer := "No tienes permiso para ver asistencias de esta clase."
  const MsgObtenidas := "Asistencias obtenidas correctamente"

  /** `getAsistenciasPorDocente` for the teacher the token names; the `fecha`
      parameter has no effect and is not taken. */
  method GetAsistenciasPorDocente(cs: seq<Clase>, rows: seq<Asistencia>, docenteId: int, claseId: Option<string>)
    returns (r: Reply<seq<Listed>>)
    ensures (forall i :: 0 <= i < |cs| ==> cs[i].idDocente != docenteId) ==> r == Success(Ok, MsgSinClases, [])
    ensures r.Failure? ==> r == Failure(Forbidden, MsgSinPermisoVer)
    ensures (exists i :: 0 <= i < |cs| && cs[i].idDocente == docenteId) ==>
      && (r.Failure? <==>
           Requested(claseId)
           && !(ParseInt(claseId.value).Some? && OwnsClass(cs, docenteId, ParseInt(claseId.value).value)))
      && (r.Success? && Requested(claseId) ==>
           r == Success(Ok, MsgObtenidas, Fetch(cs, rows, Only(ParseInt(claseId.value).value))))
      && (r.Success? && !Requested(claseId) ==>
           r == Success(Ok, MsgObtenidas, Fetch(cs, rows, AnyOf(OwnedClassIds(cs, docenteId)))))
    ensures r.Success? ==> forall i :: 0 <= i < |r.data| ==> OwnsClass(cs, docenteId, r.data[i].asistencia.idClase)
  {
    var scope := ScopeFor(cs, docenteId, claseId);
    match scope
    case NoClasses =>
      r := Success(Ok, MsgSinClases, []);
    case NotOwned =>
      r := Failure(Forbidden, MsgSinPermisoVer);
    case Within(filter) =>
      r := Success(Ok, MsgObtenidas, Fetch(cs, rows, filter));
  }

  // ---------------------------------------------------------------------------
  // exportAsistenciasAExcel
  // ---------------------------------------------------------------------------

  /** A worksheet cell that holds either text or a number. */
  datatype Cell = Text(text: string) | Number(number: real)

  /** One worksheet row, column by column; the timestamp is kept as the clock
      reading rather than as locale text. */
  datatype Row = Row(
    clase: string,
    legajo: string,
    nombre: string,
    apellido: string,
    dni: string,
    fechaHora: int,
    latitud: real,
    longitud: real,
    distancia: Cell,
    validacion: string)

  /** The spreadsheet sent as an attachment. */
  datatype Sheet = Sheet(fileName: string, rows: seq<Row>)

  const NotAvailable := "N/A"
  const Si := "Sí"
  const No := "No"
  const FileName := "asistencias.xlsx"
  const MsgSinPermisoExportar := "No tienes permiso para exportar asistencias de esta clase."

  /** The row of one check-in: the class title or `N/A`; the distance, or `N/A`
      when it is NULL or 0 (both falsy); `Sí` or `No` for the proximity flag. */
  function ExportRow(l: Listed): (row: Row)
    ensures row.clase == if l.claseTitulo.Some? then l.claseTitulo.value else NotAvailable
    ensures row.distancia.Text? <==> l.asistencia.distancia.None? || l.asistencia.distancia.value == 0
    ensures row.distancia.Text? ==> row.distancia.text == NotAvailable
    ensures row.distancia.Number? ==> row.distancia.number == l.asistencia.distancia.value as real
    ensures row.validacion == Si <==> l.asistencia.validacion
    ensures row.validacion in {Si, No}
    ensures && row.legajo == l.asistencia.legajo && row.nombre == l.asistencia.nombre
            && row.apellido == l.asistencia.apellido && row.dni == l.asistencia.dni
            && row.fechaHora == l.asistencia.fechaHora
            && row.latitud == l.asistencia.latitud && row.longitud == l.asistencia.longitud
  {
    var a := l.asistencia;
    Row(
      if l.claseTitulo.Some? then l.claseTitulo.value else NotAvailable,
      a.legajo, a.nombre, a.apellido, a.dni, a.fechaHora, a.latitud, a.longitud,
      if a.distancia.Some? && a.distancia.value != 0 then Number(a.distancia.value as real) else Text(NotAvailable),
      if a.validacion then Si else No)
  }

  /** Every check-in a listing returns is one of the stored ones. */
  lemma FetchedAreStored(cs: seq<Clase>, rows: seq<Asistencia>, f: ClassFilter, i: nat)
    requires i < |Fetch(cs, rows, f)|
    ensures Fetch(cs, rows, f)[i].asistencia in rows
  {
    var r := Fetch(cs, rows, f);
    var a := r[i].asistencia;
    assert Records(r)[i] == a;
    assert a in multiset(Records(r));
  }

  /** On a table of validated check-ins, every check-in a listing returns is validated. */
  lemma FetchedAreValidated(cs: seq<Clase>, rows: seq<Asistencia>, f: ClassFilter)
    requires AllValidated(rows)
    ensures forall i :: 0 <= i < |Fetch(cs, rows, f)| ==> Fetch(cs, rows, f)[i].asistencia.validacion
  {
    forall i | 0 <= i < |Fetch(cs, rows, f)|
      ensures Fetch(cs, rows, f)[i].asistencia.validacion
    {
      FetchedAreStored(cs, rows, f, i);
    }
  }

  /** The `forEach` that adds one worksheet row per check-in. */
  method AddRows(listed: seq<Listed>) returns (sheetRows: seq<Row>)
    ensures |sheetRows| == |listed|
    ensures forall i :: 0 <= i < |listed| ==> sheetRows[i] == ExportRow(listed[i])
  {
    sheetRows := [];
    var i := 0;
    while i < |listed|
      invariant 0 <= i <= |listed|
      invariant |sheetRows| == i
      invariant forall j :: 0 <= j < i ==> sheetRows[j] == ExportRow(listed[j])
    {
      sheetRows := sheetRows + [ExportRow(listed[i])];
      i := i + 1;
    }
  }

  /** `exportAsistenciasAExcel`: the same scope as the listing, except that a
      teacher without classes gets 404; then one row per check-in, in the
      listing's order. */
  method ExportAsistenciasAExcel(cs: seq<Clase>, rows: seq<Asistencia>, docenteId: int, claseId: Option<string>)
    returns (r: Reply<Sheet>)
    ensures (forall i :: 0 <= i < |cs| ==> cs[i].idDocente != docenteId) ==> r == Failure(NotFound, MsgSinClases)
    ensures r.Failure? && r.status != NotFound ==> r == Failure(Forbidden, MsgSinPermisoExportar)
    ensures (exists i :: 0 <= i < |cs| && cs[i].idDocente == docenteId) && r.Failure? ==>
      r == Failure(Forbidden, MsgSinPermisoExportar)
    ensures (exists i :: 0 <= i < |cs| && cs[i].idDocente == docenteId) ==>
      (r.Failure? <==>
        Requested(claseId)
        && !(ParseInt(claseId.value).Some? && OwnsClass(cs, docenteId, ParseInt(claseId.value).value)))
    ensures r.Success? ==>
      var filter := if Requested(claseId) then Only(ParseInt(claseId.value).value)
                    else AnyOf(OwnedClassIds(cs, docenteId));
      var listed := Fetch(cs, rows, filter);
      && r.status == Ok && r.data.fileName == FileName
      && |r.data.rows| == |listed|
      && (forall i :: 0 <= i < |listed| ==> r.data.rows[i] == ExportRow(listed[i]))
    ensures r.Success? && AllValidated(rows) ==> forall i :: 0 <= i < |r.data.rows| ==> r.data.rows[i].validacion == Si
  {
    var scope := ScopeFor(cs, docenteId, claseId);
    if scope.NoClasses? {
      return Failure(NotFound, MsgSinClases);
    }
    if scope.NotOwned? {
      return Failure(Forbidden, MsgSinPermisoExportar);
    }
    var listed := Fetch(cs, rows, scope.filter);
    var sheetRows := AddRows(listed);
    if AllValidated(rows) {
      FetchedAreValidated(cs, rows, scope.filter);
    }
    assert scope.filter == if Requested(claseId) then Only(ParseInt(claseId.value).value)
                           else AnyOf(OwnedClassIds(cs, docenteId));
    r := Success(Ok, "", Sheet(FileName, sheetRows));
  }
}
