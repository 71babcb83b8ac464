/** The `clases` table (one row per class session a teacher creates) and its
    constraints. */
module ClaseModel {
  import opened Js

  /** A row; `id` is the auto-increment primary key `id_clase`, `idDocente` the
      owning teacher, `fechaCreacion` a timestamp. */
  datatype Clase = Clase(
    id: int,
    idDocente: int,
    latitud: real,
    longitud: real,
    fechaCreacion: int,
    titulo: string,
    descripcion: Option<string>,
    estado: bool)

  /** `titulo` is STRING(100), counted in characters; `descripcion` is TEXT and
      may be NULL. */
  const TituloLength: nat := 100

  /** A TEXT value holds at most 65,535 bytes. */
  const TextBytes: nat := 65535

  /** DECIMAL(10, 8) holds values below 100 in magnitude, DECIMAL(11, 8) below 1000. */
  const LatitudBound: real := 100.0
  const LongitudBound: real := 1000.0

  /** `estado` when an insert does not give it. */
  const DefaultEstado: bool := true

  /** The per-row constraints MySQL enforces (NOT NULL holds by construction). */
  predicate FitsColumns(c: Clase) {
    && |c.titulo| <= TituloLength
    && (c.descripcion.Some? ==> Utf8Length(c.descripcion.value) <= TextBytes)
    && -LatitudBound < c.latitud < LatitudBound
    && -LongitudBound < c.longitud < LongitudBound
  }

  /** A description longer than 65,535 characters never fits, whatever its characters. */
  lemma LongDescriptionRefused(c: Clase)
    requires c.descripcion.Some? && |c.descripcion.value| > TextBytes
    ensures !FitsColumns(c)
  {
  }

  /** The primary key. */
  predicate UniqueIds(rows: seq<Clase>) {
    forall i, j :: 0 <= i < j < |rows| ==> rows[i].id != rows[j].id
  }
}
