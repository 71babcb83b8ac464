/** The three tables behind the Sequelize models, with the integrity rules
    MySQL and Sequelize enforce (column constraints, primary keys, unique
    indexes, foreign keys), and the writes the handlers issue: `Model.create`
    and `instance.save`. A write that breaks a rule raises an error, which
    every handler turns into a 500 answer; the tables are then unchanged. */
module Database {
  import opened Js
  import opened DocenteModel
  import opened ClaseModel
  import opened AsistenciaModel

  predicate HasDocente(ds: seq<Docente>, id: int) {
    exists i :: 0 <= i < |ds| && ds[i].id == id
  }

  predicate HasClase(cs: seq<Clase>, id: int) {
    exists i :: 0 <= i < |cs| && cs[i].id == id
  }

  /** Keys are positive and below the next auto-increment value. */
  predicate DocentesOk(ds: seq<Docente>, next: int, isEmail: string -> bool) {
    && 1 <= next
    && (forall i :: 0 <= i < |ds| ==> 1 <= ds[i].id < next && DocenteModel.FitsColumns(ds[i], isEmail))
    && UniqueKeys(ds)
  }

  /** `clases.id_docente` references `docentes`. */
  predicate ClasesOk(cs: seq<Clase>, next: int, ds: seq<Docente>) {
    && 1 <= next
    && (forall i :: 0 <= i < |cs| ==> 1 <= cs[i].id < next && ClaseModel.FitsColumns(cs[i]))
    && (forall i :: 0 <= i < |cs| ==> HasDocente(ds, cs[i].idDocente))
    && ClaseModel.UniqueIds(cs)
  }

  /** `asistencias.id_clase` references `clases`. */
  predicate AsistenciasOk(rows: seq<Asistencia>, next: int, cs: seq<Clase>) {
    && 1 <= next
    && (forall i :: 0 <= i < |rows| ==> 1 <= rows[i].id < next && AsistenciaModel.FitsColumns(rows[i]))
    && (forall i :: 0 <= i < |rows| ==> HasClase(cs, rows[i].idClase))
    && AsistenciaModel.UniqueIds(rows)
  }

  /** Whether inserting `row` succeeds. */
  predicate DocenteInsertable(ds: seq<Docente>, row: Docente, isEmail: string -> bool) {
    DocenteModel.FitsColumns(row, isEmail) && LoginsFreeFor(ds, |ds|, row)
  }

  predicate ClaseInsertable(ds: seq<Docente>, row: Clase) {
    ClaseModel.FitsColumns(row) && HasDocente(ds, row.idDocente)
  }

  predicate AsistenciaInsertable(cs: seq<Clase>, row: Asistencia) {
    AsistenciaModel.FitsColumns(row) && HasClase(cs, row.idClase)
  }

  lemma HasDocenteAppend(ds: seq<Docente>, row: Docente, id: int)
    requires HasDocente(ds, id)
    ensures HasDocente(ds + [row], id)
  {
    var i :| 0 <= i < |ds| && ds[i].id == id;
    assert (ds + [row])[i].id == id;
  }

  lemma HasDocenteUpdate(ds: seq<Docente>, k: nat, row: Docente, id: int)
    requires k < |ds| && row.id == ds[k].id
    requires HasDocente(ds, id)
    ensures HasDocente(ds[k := row], id)
  {
    var i :| 0 <= i < |ds| && ds[i].id == id;
    assert ds[k := row][i].id == id;
  }

  lemma HasClaseAppend(cs: seq<Clase>, row: Clase, id: int)
    requires HasClase(cs, id)
    ensures HasClase(cs + [row], id)
  {
    var i :| 0 <= i < |cs| && cs[i].id == id;
    assert (cs + [row])[i].id == id;
  }

  /** The database: the three tables and their auto-increment counters. The
      `isEmail` validator of `docentes.email` comes from the validator library
      and is taken as given. */
  class Store {
    const isEmail: string -> bool
    var docentes: seq<Docente>
    var clases: seq<Clase>
    var asistencias: seq<Asistencia>
    var nextDocenteId: int
    var nextClaseId: int
    var nextAsistenciaId: int

    ghost predicate Valid()
      reads this
      ensures Valid() ==>
        && (forall i :: 0 <= i < |docentes| ==> docentes[i].id != nextDocenteId)
        && (forall i :: 0 <= i < |clases| ==> clases[i].id != nextClaseId)
        && (forall i :: 0 <= i < |asistencias| ==> asistencias[i].id != nextAsistenciaId)
    {
      && DocentesOk(docentes, nextDocenteId, isEmail)
      && ClasesOk(clases, nextClaseId, docentes)
      && AsistenciasOk(asistencias, nextAsistenciaId, clases)
    }

    /** Empty tables, as `sync` creates them. */
    constructor (isEmail: string -> bool)
      ensures Valid() && this.isEmail == isEmail
      ensures docentes == [] && clases == [] && asistencias == []
      ensures nextDocenteId == 1 && nextClaseId == 1 && nextAsistenciaId == 1
    {
      this.isEmail := isEmail;
      docentes, clases, asistencias := [], [], [];
      nextDocenteId, nextClaseId, nextAsistenciaId := 1, 1, 1;
    }

    /** `Docente.create`; `estado` takes its default. */
    method CreateDocente(usuario: string, contrasena: string, nombre: string, apellido: string, email: string)
      returns (created: Option<Docente>)
      requires Valid()
      modifies this`docentes, this`nextDocenteId
      ensures Valid()
      ensures var row := Docente(old(nextDocenteId), usuario, contrasena, nombre, apellido, email, DocenteModel.DefaultEstado);
        if DocenteInsertable(old(docentes), row, isEmail) then
          created == Some(row) && docentes == old(docentes) + [row] && nextDocenteId == old(nextDocenteId) + 1
        else
          created == None && docentes == old(docentes) && nextDocenteId == old(nextDocenteId)
    {
      var row := Docente(nextDocenteId, usuario, contrasena, nombre, apellido, email, DocenteModel.DefaultEstado);
      if !DocenteInsertable(docentes, row, isEmail) {
        return None;
      }
      forall i | 0 <= i < |clases|
        ensures HasDocente(docentes + [row], clases[i].idDocente)
      {
        HasDocenteAppend(docentes, row, clases[i].idDocente);
      }
      docentes := docentes + [row];
      nextDocenteId := nextDocenteId + 1;
      created := Some(row);
    }

    /** `docente.save()` after changing attributes of the row at position `k`
        (the primary key stays). */
    method SaveDocente(k: nat, row: Docente) returns (saved: bool)
      requires Valid()
      requires k < |docentes| && row.id == docentes[k].id
      modifies this`docentes
      ensures Valid()
      ensures saved == (DocenteModel.FitsColumns(row, isEmail) && LoginsFreeFor(old(docentes), k, row))
      ensures docentes == if saved then old(docentes)[k := row] else old(docentes)
    {
      saved := DocenteModel.FitsColumns(row, isEmail) && LoginsFreeFor(docentes, k, row);
      if saved {
        forall i | 0 <= i < |clases|
          ensures HasDocente(docentes[k := row], clases[i].idDocente)
        {
          HasDocenteUpdate(docentes, k, row, clases[i].idDocente);
        }
        docentes := docentes[k := row];
      }
    }

    /** `Clase.create`; `estado` takes its default when not given. */
    method CreateClase(idDocente: int, titulo: string, descripcion: Option<string>, latitud: real, longitud: real,
                       fechaCreacion: int, estado: Option<bool>)
      returns (created: Option<Clase>)
      requires Valid()
      modifies this`clases, this`nextClaseId
      ensures Valid()
      ensures var row := Clase(old(nextClaseId), idDocente, latitud, longitud, fechaCreacion, titulo, descripcion,
                               estado.GetOr(ClaseModel.DefaultEstado));
        if ClaseInsertable(docentes, row) then
          created == Some(row) && clases == old(clases) + [row] && nextClaseId == old(nextClaseId) + 1
        else
          created == None && clases == old(clases) && nextClaseId == old(nextClaseId)
    {
      var row := Clase(nextClaseId, idDocente, latitud, longitud, fechaCreacion, titulo, descripcion,
                       estado.GetOr(ClaseModel.DefaultEstado));
      if !ClaseInsertable(docentes, row) {
        return None;
      }
      forall i | 0 <= i < |asistencias|
        ensures HasClase(clases + [row], asistencias[i].idClase)
      {
        HasClaseAppend(clases, row, asistencias[i].idClase);
      }
      clases := clases + [row];
      nextClaseId := nextClaseId + 1;
      created := Some(row);
    }

    /** `Asistencia.create`; `validacion_ubicacion` takes its default when not given. */
    method CreateAsistencia(idClase: int, legajo: string, nombre: string, apellido: string, dni: string,
                            latitud: real, longitud: real, distancia: Option<nat>, fechaHora: int,
                            validacion: Option<bool>)
      returns (created: Option<Asistencia>)
      requires Valid()
      modifies this`asistencias, this`nextAsistenciaId
      ensures Valid()
      ensures var row := Asistencia(old(nextAsistenciaId), idClase, legajo, nombre, apellido, dni, fechaHora,
                                    latitud, longitud, distancia, validacion.GetOr(DefaultValidacion));
        if AsistenciaInsertable(clases, row) then
          created == Some(row) && asistencias == old(asistencias) + [row]
          && nextAsistenciaId == old(nextAsistenciaId) + 1
        else
          created == None && asistencias == old(asistencias) && nextAsistenciaId == old(nextAsistenciaId)
    {
      var row := Asistencia(nextAsistenciaId, idClase, legajo, nombre, apellido, dni, fechaHora,
                            latitud, longitud, distancia, validacion.GetOr(DefaultValidacion));
      if !AsistenciaInsertable(clases, row) {
        return None;
      }
      asistencias := asistencias + [row];
      nextAsistenciaId := nextAsistenciaId + 1;
      created := Some(row);
    }
  }
}
