/** The `asistencias` table (one row per accepted check-in, an append-only
    audit log) and its constraints. */
module AsistenciaModel {
  import opened Js

  /** A row; `id` is the auto-increment primary key `id_asistencia`, `idClase`
      the class checked into, `fechaHora` the timestamp of the check-in and
      `distancia` the student's distance to the classroom in metres. */
  datatype Asistencia = Asistencia(
    id: int,
    idClase: int,
    legajo: string,
    nombre: string,
    apellido: string,
    dni: string,
    fechaHora: int,
    latitud: real,
    longitud: real,
    distancia: Option<nat>,
    validacion: bool)

  /** Column sizes: `legajo_alumno` STRING(20), `dni_alumno` STRING(15), the two
      names STRING(100). */
  const LegajoLength: nat := 20
  const DniLength: nat := 15
  const NombreLength: nat := 100

  /** DECIMAL(10, 8), DECIMAL(11, 8) and DECIMAL(10, 2) bounds. */
  const LatitudBound: real := 100.0
  const LongitudBound: real := 1000.0
  const DistanciaBound: nat := 100000000

  /** `validacion_ubicacion` when an insert does not give it. */
  const DefaultValidacion: bool := false

  /** The per-row constraints MySQL enforces; `distancia_al_aula` alone may be NULL. */
  predicate FitsColumns(a: Asistencia) {
    && |a.legajo| <= LegajoLength
    && |a.nombre| <= NombreLength
    && |a.apellido| <= NombreLength
    && |a.dni| <= DniLength
    && -LatitudBound < a.latitud < LatitudBound
    && -LongitudBound < a.longitud < LongitudBound
    && (a.distancia.Some? ==> a.distancia.value < DistanciaBound)
  }

  /** The primary key. */
  predicate UniqueIds(rows: seq<Asistencia>) {
    forall i, j :: 0 <= i < j < |rows| ==> rows[i].id != rows[j].id
  }

  /** Every row records a passed proximity check together with its distance. */
  predicate AllValidated(rows: seq<Asistencia>) {
    forall i :: 0 <= i < |rows| ==> rows[i].validacion && rows[i].distancia.Some?
  }

  /** Appending a validated row keeps the table validated. */
  lemma ValidatedAppend(rows: seq<Asistencia>, row: Asistencia)
    requires AllValidated(rows) && row.validacion && row.distancia.Some?
    ensures AllValidated(rows + [row])
  {
    forall i | 0 <= i < |rows + [row]|
      ensures (rows + [row])[i].validacion && (rows + [row])[i].distancia.Some?
    {
      if i < |rows| {
        assert (rows + [row])[i] == rows[i];
      }
    }
  }
}
