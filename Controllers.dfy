/**
 * controllers/grupo.go: the paginated listing, the validated create, the
 * get-by-id outcome classification and the all-or-nothing
 * create-group-with-details transaction. The paginated repository calls
 * this file makes (an eight-argument SearchGrupos and a GetAllGrupos with
 * limit and offset) are not part of this model; their results are inputs.
 */
module Controllers {
  import opened Wrappers
  import opened Models
  import opened Database
  import opened Pagination
  import opened Transaction
  import GrupoRepo

  // ---------------------------------------------------------------------
  // Offset and page count
  // ---------------------------------------------------------------------

  const TwoTo64 := 0x1_0000_0000_0000_0000

  /** Go's 64-bit signed int arithmetic: the result modulo 2^64, read back as a signed value. */
  function WrapInt64(x: int): (r: int)
    ensures MinInt64 <= r <= MaxInt64
    ensures MinInt64 <= x <= MaxInt64 ==> r == x
    ensures (r - x) % TwoTo64 == 0
  {
    (x - MinInt64) % TwoTo64 + MinInt64
  }

  /** `offset := (page - 1) * limit` as the code computes it, in 64-bit int. */
  function OffsetAsWritten(page: int, limit: int): (offset: int)
    ensures MinInt64 <= offset <= MaxInt64
    ensures (offset - (page - 1) * limit) % TwoTo64 == 0
  {
    WrapInt64((page - 1) * limit)
  }

  /** A page that GetPaginationParams can return with a limit of 2 makes the written offset negative. */
  lemma OffsetAsWrittenOverflows()
    ensures 1 <= 0x4000_0000_0000_0001 <= MaxInt64
    ensures OffsetAsWritten(0x4000_0000_0000_0001, 2) < 0
  {
    assert (0x4000_0000_0000_0001 - 1) * 2 == 0x8000_0000_0000_0000;
  }

  /** When the product fits in 64 bits the written offset is the intended one. */
  lemma OffsetAsWrittenWhenInRange(page: int, limit: int)
    requires 1 <= page && 1 <= limit
    requires (page - 1) * limit <= MaxInt64
    ensures OffsetAsWritten(page, limit) == (page - 1) * limit
  {
    NonNegativeProduct(page - 1, limit);
  }

  lemma NonNegativeProduct(a: int, b: int)
    requires a >= 0 && b >= 0
    ensures a * b >= 0
  {
  }

  /**
   * The offset as intended: the number of rows of the pages before `page`,
   * saturated at the largest 64-bit value instead of wrapping round to a
   * negative number.
   */
  function Offset(page: int, limit: int): (offset: int)
    requires 1 <= page && 1 <= limit
    ensures 0 <= offset <= MaxInt64
    ensures (page - 1) * limit <= MaxInt64 ==> offset == (page - 1) * limit
    ensures (page - 1) * limit > MaxInt64 ==> offset == MaxInt64
  {
    NonNegativeProduct(page - 1, limit);
    var skipped := (page - 1) * limit;
    if skipped <= MaxInt64 then skipped else MaxInt64
  }

  /**
   * totalPages: 0 for no items, otherwise the ceiling of totalItems / limit
   * (computed in the code through float64 and math.Ceil).
   */
  function TotalPages(totalItems: int, limit: int): (pages: int)
    requires limit >= 1
    ensures totalItems <= 0 ==> pages == 0
    ensures totalItems > 0 ==> pages >= 1 && pages * limit >= totalItems && (pages - 1) * limit < totalItems
  {
    if totalItems > 0 then
      var q := (totalItems + limit - 1) / limit;
      var rem := (totalItems + limit - 1) % limit;
      assert q * limit + rem == totalItems + limit - 1;
      q
    else 0
  }

  /** No smaller page count covers all the items: TotalPages is the least n with n * limit >= totalItems. */
  lemma TotalPagesIsLeast(totalItems: int, limit: int, n: int)
    requires limit >= 1 && totalItems > 0
    requires n * limit >= totalItems
    ensures n >= TotalPages(totalItems, limit)
  {
    var p := TotalPages(totalItems, limit);
    if n < p {
      assert n <= p - 1;
      MonotoneProduct(n, p - 1, limit);
      assert false;
    }
  }

  lemma MonotoneProduct(a: int, b: int, c: int)
    requires a <= b && c >= 0
    ensures a * c <= b * c
  {
    NonNegativeProduct(b - a, c);
    assert b * c - a * c == (b - a) * c;
  }

  // ---------------------------------------------------------------------
  // GetGruposHandler
  // ---------------------------------------------------------------------

  /** The query parameters GetGruposHandler reads, with page and limit as strconv.Atoi made of them. */
  datatype GruposQuery = GruposQuery(
    grupo: string,
    investigador: string,
    anio: string,
    lineaInvestigacion: string,
    tipoInvestigacion: string,
    page: Option<int>,
    limit: Option<int>)

  /** Any of the five filters is set. */
  predicate IsSearch(q: GruposQuery)
  {
    q.grupo != "" || q.investigador != "" || q.anio != "" || q.lineaInvestigacion != "" || q.tipoInvestigacion != ""
  }

  /** The repository call the handler makes. */
  datatype GruposCall =
    | SearchCall(groupName: string, investigatorName: string, year: string, lineaInvestigacion: string, tipoInvestigacion: string, limit: int, offset: int)
    | ListCall(limit: int, offset: int)

  /** The call for a query at a given limit and offset: the search with all five filters when any is set, the plain listing otherwise. */
  function CallFor(q: GruposQuery, limit: int, offset: int): (c: GruposCall)
    ensures c.SearchCall? <==> IsSearch(q)
    ensures c.SearchCall? ==> c == SearchCall(q.grupo, q.investigador, q.anio, q.lineaInvestigacion, q.tipoInvestigacion, limit, offset)
    ensures c.ListCall? ==> c == ListCall(limit, offset)
  {
    if IsSearch(q) then SearchCall(q.grupo, q.investigador, q.anio, q.lineaInvestigacion, q.tipoInvestigacion, limit, offset)
    else ListCall(limit, offset)
  }

  /** The call the handler as written makes: normalised page and limit, and the offset `(page - 1) * limit` in 64-bit int. */
  function GruposRequest(q: GruposQuery): (c: GruposCall)
    ensures c.SearchCall? <==> IsSearch(q)
    ensures c.SearchCall? ==> c == SearchCall(q.grupo, q.investigador, q.anio, q.lineaInvestigacion, q.tipoInvestigacion, c.limit, c.offset)
    ensures 1 <= c.limit <= MaxLimit && MinInt64 <= c.offset <= MaxInt64
    ensures var (page, limit) := GetPaginationParams(q.page, q.limit);
      && c.limit == limit
      && c.offset == WrapInt64((page - 1) * limit)
      && ((page - 1) * limit <= MaxInt64 ==> c.offset == (page - 1) * limit)
  {
    var (page, limit) := GetPaginationParams(q.page, q.limit);
    var offset := OffsetAsWritten(page, limit);
    assert (page - 1) * limit <= MaxInt64 ==> offset == (page - 1) * limit by {
      if (page - 1) * limit <= MaxInt64 {
        OffsetAsWrittenWhenInRange(page, limit);
      }
    }
    CallFor(q, limit, offset)
  }

  /** A page parameter the handler accepts makes the offset it passes on negative. */
  lemma GruposRequestOverflows(q: GruposQuery)
    requires q.page == Some(0x4000_0000_0000_0001) && q.limit == Some(2)
    ensures GruposRequest(q).offset < 0
  {
    OffsetAsWrittenOverflows();
  }

  /** The call with the corrected offset: the same choice and limit, and an offset that is never negative. */
  function GruposRequestCorrected(q: GruposQuery): (c: GruposCall)
    ensures c.SearchCall? <==> IsSearch(q)
    ensures c.SearchCall? ==> c == SearchCall(q.grupo, q.investigador, q.anio, q.lineaInvestigacion, q.tipoInvestigacion, c.limit, c.offset)
    ensures 1 <= c.limit <= MaxLimit && 0 <= c.offset <= MaxInt64
    ensures var (page, limit) := GetPaginationParams(q.page, q.limit); c.limit == limit && c.offset == Offset(page, limit)
  {
    var (page, limit) := GetPaginationParams(q.page, q.limit);
    CallFor(q, limit, Offset(page, limit))
  }

  /** The two calls agree whenever the written product fits in 64 bits. */
  lemma CorrectedRequestAgrees(q: GruposQuery)
    ensures var (page, limit) := GetPaginationParams(q.page, q.limit);
      (page - 1) * limit <= MaxInt64 ==> GruposRequest(q) == GruposRequestCorrected(q)
  {
    var (page, limit) := GetPaginationParams(q.page, q.limit);
    NonNegativeProduct(page - 1, limit);
  }

  /** One page of results and the total count, as a paginated repository call returns them when it succeeds. */
  datatype Fetched<T> = Fetched(items: T, totalItems: int)

  /** The `data` field: groups with their investigators for a search, plain groups for the listing. */
  datatype GruposData = WithInvestigadores(grupos: seq<GrupoWithInvestigadores>) | Simple(simple: seq<Grupo>)

  datatype PaginatedResponse = PaginatedResponse(data: GruposData, pagination: PaginationMetadata)

  /**
   * GetGruposHandler, given what each possible repository call returns
   * (None for an error); only the one GruposRequest chooses is used.
   */
  function GetGruposHandler(q: GruposQuery, searched: Option<Fetched<seq<GrupoWithInvestigadores>>>, listed: Option<Fetched<seq<Grupo>>>): (r: Response<PaginatedResponse>)
    ensures r.ServerError? || r.Ok?
    ensures r.ServerError? <==> (if IsSearch(q) then searched.None? else listed.None?)
    ensures r.Ok? && IsSearch(q) ==> r.body.data == WithInvestigadores(searched.value.items)
    ensures r.Ok? && !IsSearch(q) ==> r.body.data == Simple(listed.value.items)
    ensures r.Ok? ==>
      var (page, limit) := GetPaginationParams(q.page, q.limit);
      var total := if IsSearch(q) then searched.value.totalItems else listed.value.totalItems;
      r.body.pagination == PaginationMetadata(total, TotalPages(total, limit), page, limit)
  {
    var (page, limit) := GetPaginationParams(q.page, q.limit);
    var call := GruposRequest(q);
    var fetched: Option<(GruposData, int)> :=
      match call
      case SearchCall(_, _, _, _, _, _, _) => if searched.None? then None else Some((WithInvestigadores(searched.value.items), searched.value.totalItems))
      case ListCall(_, _) => if listed.None? then None else Some((Simple(listed.value.items), listed.value.totalItems));
    if fetched.None? then ServerError
    else
      var (data, totalItems) := fetched.value;
      Ok(PaginatedResponse(data, PaginationMetadata(totalItems, TotalPages(totalItems, limit), page, limit)))
  }

  // ---------------------------------------------------------------------
  // GetGrupoHandler and CreateGrupoHandler
  // ---------------------------------------------------------------------

  /** GetGrupoHandler: id is what strconv.Atoi made of the path segment. */
  method GetGrupoHandler(s: Store, id: Option<int>, lookupFails: bool) returns (resp: Response<Grupo>)
    ensures id.None? <==> resp.BadRequest?
    ensures id.Some? && lookupFails ==> resp.ServerError?
    ensures id.Some? && !lookupFails && id.value !in s.grupos.rows ==> resp.NotFound?
    ensures id.Some? && !lookupFails && id.value in s.grupos.rows ==> resp == Ok(s.grupos.rows[id.value])
    ensures resp.ServerError? ==> lookupFails
  {
    if id.None? {
      return BadRequest;
    }
    var grupo, err := GrupoRepo.GetGrupoByID(s, id.value, lookupFails);
    if err.Some? {
      return ServerError;
    }
    if grupo.None? {
      return NotFound;
    }
    return Ok(grupo.value);
  }

  /** The validation CreateGrupoHandler applies before calling the repository. */
  predicate HasRequiredFields(g: Grupo)
  {
    g.nombre != "" && g.numeroResolucion != "" && g.lineaInvestigacion != "" && g.tipoInvestigacion != "" && g.fechaRegistro != 0
  }

  /** CreateGrupoHandler: body is None when the JSON does not decode. */
  method CreateGrupoHandler(s: Store, body: Option<Grupo>, execFails: bool, lastIdFails: bool) returns (resp: Response<Grupo>)
    requires s.Valid()
    modifies s
    ensures s.Valid()
    ensures resp.BadRequest? <==> body.None? || !HasRequiredFields(body.value)
    ensures resp.BadRequest? ==> s.State() == old(s.State())
    ensures !resp.BadRequest? ==> (resp.ServerError? <==> execFails || lastIdFails)
    ensures !resp.BadRequest? && !execFails ==> s.grupos == Insert(old(s.grupos), body.value.(id := old(s.grupos.next)))
    ensures !resp.BadRequest? && execFails ==> s.grupos == old(s.grupos)
    ensures !resp.BadRequest? && !execFails && !lastIdFails ==> resp == Created(body.value.(id := old(s.grupos.next)), false)
    ensures s.investigadores == old(s.investigadores) && s.detalles == old(s.detalles)
  {
    if body.None? {
      return BadRequest;
    }
    var g := body.value;
    if g.nombre == "" || g.numeroResolucion == "" || g.lineaInvestigacion == "" || g.tipoInvestigacion == "" {
      return BadRequest;
    }
    if g.fechaRegistro == 0 {
      return BadRequest;
    }
    var err;
    g, err := GrupoRepo.CreateGrupo(s, g, execFails, lastIdFails);
    if err.Some? {
      return ServerError;
    }
    return Created(g, false);
  }

  // ---------------------------------------------------------------------
  // CreateGrupoWithDetailsHandler
  // ---------------------------------------------------------------------

  /**
   * What the handler leaves in the store and writes. Every failure before
   * the response is written rolls back; a failing commit is only logged,
   * after 201 has been sent, and persists nothing.
   */
  function CreateWithDetailsOutcome(db: Db, body: Option<CreateRequest>, f: TxFaults): (r: (Db, Response<Grupo>))
    ensures r.1.BadRequest? <==> body.None?
    ensures body.None? ==> r.0 == db
    ensures body.Some? ==> r.0 == db || r.0 == CommitGroup(db, body.value.grupo, body.value.investigadores)
    ensures r.1.Created? ==> body.Some? && r.1.body == body.value.grupo.(id := db.grupos.next)
    ensures r.1.ServerError? ==> r.0 == db
  {
    if body.None? then (db, BadRequest)
    else if f.beginFails then (db, ServerError)
    else
      var req := body.value;
      if f.groupInsertFails || FirstFailed(f.linkFails, |req.investigadores|) < |req.investigadores| then (db, ServerError)
      else
        var created := Created(req.grupo.(id := db.grupos.next), false);
        if f.commitFails then (db, created) else (CommitGroup(db, req.grupo, req.investigadores), created)
  }

  /**
   * The flow is all-or-nothing: the store either stays as it was or gains
   * exactly the group and one link per entry; it gains them exactly when no
   * step fails, and then the response carries the group under its new id.
   * An undecodable body opens no transaction.
   */
  lemma CreateWithDetailsAllOrNothing(db: Db, body: Option<CreateRequest>, f: TxFaults)
    requires DbValid(db)
    ensures var (db', resp) := CreateWithDetailsOutcome(db, body, f);
      && (db' == db || (body.Some? && db' == CommitGroup(db, body.value.grupo, body.value.investigadores)))
      && (db' != db <==> body.Some? && !f.beginFails && !f.groupInsertFails && !f.commitFails
                         && (forall i :: 0 <= i < |body.value.investigadores| ==> i !in f.linkFails))
      && (db' != db ==> CommittedExactly(db, db', body.value.grupo, body.value.investigadores)
                        && resp == Created(body.value.grupo.(id := db.grupos.next), false))
      && (body.None? ==> resp == BadRequest)
      && (resp.ServerError? ==> db' == db)
      && (body.Some? && (f.beginFails || f.groupInsertFails || exists i :: 0 <= i < |body.value.investigadores| && i in f.linkFails) ==> resp == ServerError)
  {
    if body.Some? {
      var req := body.value;
      var n := |req.investigadores|;
      var k := FirstFailed(f.linkFails, n);
      if i :| 0 <= i < n && i in f.linkFails {
        assert k <= i;
      }
      CommitGroupExactly(db, req.grupo, req.investigadores);
      assert db.grupos.next !in db.grupos.rows;
      assert CommitGroup(db, req.grupo, req.investigadores).grupos != db.grupos by {
        assert db.grupos.next in CommitGroup(db, req.grupo, req.investigadores).grupos.rows;
      }
      if k < n {
        assert k in f.linkFails;
      }
    }
  }

  /**
   * CreateGrupoWithDetailsHandler. The deferred commit-or-rollback runs
   * after the labelled block, whichever way the block is left; `err` is
   * the variable it reads.
   */
  method CreateGrupoWithDetailsHandler(s: Store, body: Option<CreateRequest>, f: TxFaults) returns (resp: Response<Grupo>)
    requires s.Valid()
    modifies s
    ensures s.Valid()
    ensures (s.State(), resp) == CreateWithDetailsOutcome(old(s.State()), body, f)
  {
    if body.None? {
      return BadRequest;
    }
    var req := body.value;
    if f.beginFails {
      return ServerError;
    }
    var snapshot := s.State();
    var err := false;
    resp := NoResponse;
    label handler: {
      if f.groupInsertFails {
        err := true;
        resp := ServerError;
        break handler;
      }
      var grupoID := s.grupos.next;
      s.grupos := Insert(s.grupos, req.grupo.(id := grupoID));
      var rels := req.investigadores;
      for i := 0 to |rels|
        invariant grupoID == snapshot.grupos.next
        invariant s.grupos == Insert(snapshot.grupos, req.grupo.(id := grupoID))
        invariant s.investigadores == snapshot.investigadores
        invariant s.detalles == InsertLinks(snapshot.detalles, grupoID, rels[..i])
        invariant forall j :: 0 <= j < i ==> j !in f.linkFails
        invariant !err
      {
        if i in f.linkFails {
          err := true;
          resp := ServerError;
          break handler;
        }
        assert rels[..i + 1][..i] == rels[..i];
        s.detalles := InsertLink(s.detalles, grupoID, rels[i]);
      }
      assert rels[..|rels|] == rels;
      var grupoToCreate := req.grupo.(id := grupoID);
      resp := Created(grupoToCreate, false);
    }
    if err {
      s.Restore(snapshot);
    } else if f.commitFails {
      s.Restore(snapshot);
    } else {
      CommitGroupValid(snapshot, req.grupo, req.investigadores);
    }
  }
}
