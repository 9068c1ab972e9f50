/**
 * The entities of models/models.go as values, plus the shapes the handlers
 * produce. The database-assigned createdAt/updatedAt timestamps declared in
 * models/grupo.go and models/investigador.go are not modelled.
 */
module Models {

  /** Go's time.Time reduced to its instant, counted from Go's zero time, so that IsZero() holds exactly at 0. */
  type Time = int

  datatype Investigador = Investigador(id: int, nombre: string, apellido: string, rol: string)

  datatype Grupo = Grupo(
    id: int,
    nombre: string,
    numeroResolucion: string,
    lineaInvestigacion: string,
    tipoInvestigacion: string,
    fechaRegistro: Time,
    archivo: string)

  /** A row of the group/investigator link table (DetalleGrupoInvestigador). */
  datatype Detalle = Detalle(id: int, idGrupo: int, idInvestigador: int, tipoRelacion: string)

  datatype GrupoWithInvestigadores = GrupoWithInvestigadores(grupo: Grupo, investigadores: seq<Investigador>)

  datatype PaginationMetadata = PaginationMetadata(totalItems: int, totalPages: int, currentPage: int, limit: int)

  /** An error returned by a repository function; `context` is the message that fmt.Errorf puts in front of the driver's error. */
  datatype Error = Error(context: string)

  /**
   * What a handler writes to the http.ResponseWriter. NoResponse is a handler
   * that returns without writing anything. Created carries the encoded body;
   * trailingError is set when http.Error is called after the 201 status line
   * was written, which appends an error text to the body but cannot change
   * the status any more.
   */
  datatype Response<T> =
    | BadRequest
    | NotFound
    | ServerError
    | NoResponse
    | Ok(body: T)
    | Created(body: T, trailingError: bool)
}
