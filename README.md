# Research groups API: a Dafny model

This project models the core of a small Go HTTP/SQL service. The service
keeps research groups (`Grupo`), investigators (`Investigador`) and the
links between them (`Detalle_GrupoInvestigador`). The model covers five
things:

- **Repository functions.** These are modelled as operations on an abstract
  store of three tables. Each table maps an id to its row and keeps the next
  AUTO_INCREMENT value. The store is the class `Database.Store`, and
  repository functions that write to it are methods that modify it.
- **Search-query builders.** These start from a base query ending in
  `WHERE 1=1`. They append one fixed fragment, with `?` placeholders, per
  non-empty filter, and bind the matching arguments.
- **Page and limit normalisation.**
- **The two list handlers.** This covers the controllers' paginated listing
  (offset, page count, metadata, search-or-list choice) and the handlers'
  unpaginated one.
- **The two create-group-with-details transactions.** The controllers
  variant is all-or-nothing. In the handlers variant, a loop-local `err`
  lets a failing link insert commit the group.

Driver failures are parameters. They cover a failing Exec, Query, Scan or
LastInsertId, a failing `rows.Err()`, and a failing Begin or Commit. A
transaction takes a snapshot of the store at Begin. Rollback restores the
snapshot.

The modules are:

- `Wrappers`: `Option`.
- `Models`: the entities and handler outcomes.
- `Sql`: placeholder counting, clause lists, the `rows.Next`/`Scan` loop and
  the `QueryRow(...).Scan` mapping.
- `Database`: tables and the `Store` class.
- `Pagination`: `GetPaginationParams`.
- `GrupoRepo`, `InvestigadorRepo`, `DetalleRepo`: the three repository
  files.
- `Transaction`: the shared request shape and commit effect.
- `Controllers`: controllers/grupo.go.
- `Handlers`: handlers/grupo_handler.go.

Two behaviours of handlers/grupo_handler.go are modelled as the code has
them:

- A failed group insert, or a failed LastInsertId, writes no response
  (:226-236).
- A failed link insert commits the rows already inserted (:240-244, see
  Findings).

The controllers' transaction uses `$n` placeholders and the names `grupo`
and `Grupo_Investigador`, unlike the rest of the code. The model maps these
onto the same two tables the repository functions use. The service connects
through go-sql-driver/mysql (database/connection.go:9, :26), and MySQL
accepts neither `$1`…`$6` nor `RETURNING` (controllers/grupo.go:276). So
the group insert there plausibly fails on every request, which is
`groupInsertFails` in the model. This was not executed.

## Model

| member | source | states |
|---|---|---|
| `Pagination.GetPaginationParams` | utils/pagination.go:10-27 | page ≥ 1 and 1 ≤ limit ≤ 100. An unparseable page or a page below 1 gives 1; an unparseable limit or a limit below 1 gives 10; a limit above 100 gives 100; in-range values pass through unchanged. |
| `Pagination.NormalisedIndependently` | utils/pagination.go:14-25 | The page result depends only on the page parameter, and the limit result only on the limit parameter. |
| `Sql.QueryRows` | repository/grupo_repo.go:11-30 | The row loop succeeds exactly when Query, every Scan and rows.Err succeed. It then returns all rows in order. Any failure gives (nil, wrapped error) and never a partial list, with the Query, Scan or rows.Err prefix of the first step that fails (`Sql.ListError`). |
| `Sql.FromScan` | repository/grupo_repo.go:36-43 | ErrNoRows gives (nil, nil), any other error gives (nil, err) with err carrying the given prefix, and a row gives (row, nil) with that row. Both results are never set at once. |
| `Sql.ListError` | repository/grupo_repo.go:12-30 | A listing reports no error exactly when every step succeeds; otherwise the error carries one of the three prefixes, the one of the first failing step. |
| `Sql.PlaceholdersAppend` | repository/grupo_repo.go:85-98 | Appending fragments adds their placeholder counts. |
| `Sql.FragmentsMatchArguments` | repository/grupo_repo.go:85-98 | When each clause binds as many values as its fragment has `?`, the concatenated fragments have exactly as many `?` as the concatenated arguments. |
| `Sql.AppendedPlaceholdersMatchArguments` | repository/grupo_repo.go:82-98 | Appending well-formed clauses to any base query adds one placeholder per bound value. |
| `Database.RowsComplete` | repository/grupo_repo.go:11 | A full-table SELECT returns exactly the stored rows. |
| `Database.Store.Restore` | controllers/grupo.go:263 | Rollback puts every table back to the snapshot taken at Begin. |
| `GrupoRepo.GetAllGrupos` | repository/grupo_repo.go:10-31 | Lists every stored group and no other row. The error is `ListError` with the prefixes "error querying groups", "error scanning group row" and "error after iterating through group rows". |
| `GrupoRepo.GetGrupoByID` | repository/grupo_repo.go:34-44 | An absent id gives (nil, nil), a failed query gives (nil, "error getting group by ID"), and a stored id gives its row. |
| `GrupoRepo.CreateGrupo` | repository/grupo_repo.go:47-60 | On success, the row is stored under the next generated id and the caller's struct gets that ID. On either error, the struct's ID is unchanged. A failed LastInsertId leaves the row inserted. Other tables are unchanged. |
| `GrupoRepo.UpdateGrupo` | repository/grupo_repo.go:63-69 | Replaces the row with the struct's ID. An absent id changes nothing and is not an error. Other rows are unchanged. |
| `GrupoRepo.DeleteGrupo` | repository/grupo_repo.go:72-78 | Removes only the row with that id. An absent id is not an error. Other rows are unchanged. |
| `GrupoRepo.BuildSearchQuery` | repository/grupo_repo.go:82-98 | The `+=`/append steps produce the base followed by the clause fragments in the order groupName, investigatorName, year, with the arguments in the same order. |
| `GrupoRepo.FragmentsOfClauses` | repository/grupo_repo.go:85-98 | Gives the explicit query suffix and argument list for every filter combination: `%name%` once for the group name, `%name%` twice for the investigator name, and the year unwrapped. |
| `GrupoRepo.SearchWithoutFilters` | repository/grupo_repo.go:82-83 | With no filters, the query is exactly the base ending in `WHERE 1=1` and nothing is bound. |
| `GrupoRepo.NameFilterPlaceholders` | repository/grupo_repo.go:86 | The group-name fragment has one `?`. |
| `GrupoRepo.InvestigatorFilterPlaceholders` | repository/grupo_repo.go:91 | The investigator fragment has two `?`. |
| `GrupoRepo.YearFilterPlaceholders` | repository/grupo_repo.go:96 | The year fragment has one `?`. |
| `GrupoRepo.SearchPlaceholdersMatchArguments` | repository/grupo_repo.go:85-98 | The placeholders appended to the base equal the arguments bound: 1 for the group name, 2 for the investigator name, 1 for the year. |
| `GrupoRepo.SearchTextIndependentOfInput` | repository/grupo_repo.go:85-98 | The query text depends only on which filters are non-empty, never on their contents. |
| `GrupoRepo.SearchGrupos` | repository/grupo_repo.go:81-119 | Returns the built query and arguments. The rows are the matched rows on success, and the error is `ListError` with the prefixes "error searching groups", "error scanning group row during search" and "error after iterating through group search rows". |
| `InvestigadorRepo.GetAllInvestigadores` | repository/investigador_repo.go:10-31 | Lists every stored investigator and no other row. The error is `ListError` with the three investigator listing prefixes. |
| `InvestigadorRepo.GetInvestigadorByID` | repository/investigador_repo.go:34-44 | (nil, nil) when absent, (nil, err) on a failed query, and the row when found. |
| `InvestigadorRepo.CreateInvestigador` | repository/investigador_repo.go:47-60 | On success, the row is stored under the next id and inv.ID is set. On error, inv.ID is unchanged. |
| `InvestigadorRepo.UpdateInvestigador` | repository/investigador_repo.go:63-69 | An absent id is not an error, and rows with other ids are unchanged. |
| `InvestigadorRepo.DeleteInvestigador` | repository/investigador_repo.go:72-78 | Removes only that id. An absent id is not an error. |
| `InvestigadorRepo.BuildSearchQuery` | repository/investigador_repo.go:82-89 | The base, plus the name fragment and two bound patterns when the name is non-empty. |
| `InvestigadorRepo.FragmentsOfClauses` | repository/investigador_repo.go:85-89 | A non-empty name appends exactly one fragment and the two equal arguments `%name%`. An empty name appends nothing. |
| `InvestigadorRepo.SearchWithoutFilters` | repository/investigador_repo.go:82-83 | An empty name leaves the bare base and no arguments. |
| `InvestigadorRepo.NameFilterPlaceholders` | repository/investigador_repo.go:86 | The name fragment has two `?`. |
| `InvestigadorRepo.SearchPlaceholdersMatchArguments` | repository/investigador_repo.go:85-89 | The placeholders appended equal the arguments bound: 2 for a non-empty name, and these are two equal patterns. |
| `InvestigadorRepo.SearchTextIndependentOfInput` | repository/investigador_repo.go:85-89 | The query text is independent of the name's content. |
| `InvestigadorRepo.SearchInvestigadores` | repository/investigador_repo.go:81-111 | Returns the built query and arguments. The rows are the matched rows on success, and the error is `ListError` with the three investigator search prefixes. |
| `DetalleRepo.CreateDetalleGrupoInvestigador` | repository/detalle_grupo_investigador_repo.go:10-23 | On success, the link is stored under the next id and detalle.ID is set. On error, detalle.ID is unchanged. |
| `DetalleRepo.LinksOfMembers` | repository/detalle_grupo_investigador_repo.go:27 | `WHERE idGrupo = ?` selects exactly the rows of that group. |
| `DetalleRepo.GetDetallesByGrupoID` | repository/detalle_grupo_investigador_repo.go:26-47 | Returns exactly the stored links whose idGrupo is grupoID. No match gives an empty, non-nil list. A failure gives (nil, err) with the first failing step's prefix (`ListError`) and never a partial list. |
| `DetalleRepo.DeleteDetalleGrupoInvestigador` | repository/detalle_grupo_investigador_repo.go:50-56 | Removes only the row with that id. An absent id is not an error. |
| `DetalleRepo.GetDetalleGrupoInvestigadorByID` | repository/detalle_grupo_investigador_repo.go:60-70 | (nil, nil) when absent, (nil, err) on a failed query, and the row when found. |
| `DetalleRepo.UpdateDetalleGrupoInvestigador` | repository/detalle_grupo_investigador_repo.go:73-79 | Replaces idGrupo, idInvestigador and tipoRelacion of the matching row only. An absent id changes nothing. |
| `Transaction.InsertLinksShape` | controllers/grupo.go:290-298 | The link loop adds one row per entry, in list order. Entry i becomes id next+i, linked to the group with that entry's investigator and relation. Earlier rows are untouched. |
| `Transaction.InsertLinksKeyed` | controllers/grupo.go:290-298 | The link inserts keep ids generated and add exactly one row per entry. |
| `Transaction.CommittedLinkKeys` | controllers/grupo.go:290-298 | After the commit, the link table holds the old ids plus exactly the new ids next … next+\|entries\|-1, and no other id. |
| `Transaction.CommitGroupExactly` | controllers/grupo.go:279-306 | A commit adds exactly one group under the new id plus one link per entry with `idGrupo = grupoID`. Investigators are unchanged. |
| `Transaction.CommitGroupValid` | controllers/grupo.go:279-298 | A commit keeps the store well formed and adds 1 group and \|entries\| links. |
| `Transaction.FirstFailed` | controllers/grupo.go:290-297 | The loop stops at the first failing insert. Every position before it succeeded. |
| `Controllers.WrapInt64` | controllers/grupo.go:29 | Go int arithmetic: the result is in 64-bit range, congruent modulo 2^64, and exact when in range. |
| `Controllers.OffsetAsWritten` | controllers/grupo.go:29 | The written offset is a 64-bit value congruent to `(page-1)*limit` modulo 2^64. |
| `Controllers.OffsetAsWrittenOverflows` | controllers/grupo.go:28-29 | The written offset `(page-1)*limit` wraps to a negative value for a page that GetPaginationParams accepts. |
| `Controllers.OffsetAsWrittenWhenInRange` | controllers/grupo.go:29 | When the product fits, the written offset is `(page-1)*limit`. |
| `Controllers.Offset` | controllers/grupo.go:29 | The corrected offset is ≥ 0. It equals `(page-1)*limit` whenever that fits in 64 bits. |
| `Controllers.TotalPages` | controllers/grupo.go:57-60 | 0 when there are no items. Otherwise n with n·limit ≥ totalItems > (n-1)·limit. |
| `Controllers.TotalPagesIsLeast` | controllers/grupo.go:57-60 | totalPages is the smallest n with n·limit ≥ totalItems. |
| `Controllers.IsSearch` | controllers/grupo.go:36 | A search is any request with one of the five filters non-empty. |
| `Controllers.CallFor` | controllers/grupo.go:38-48 | The search call, with the five filters unchanged, exactly when IsSearch; the plain listing otherwise. |
| `Controllers.GruposRequest` | controllers/grupo.go:21-48 | As written: the search call exactly when IsSearch, with the filters unchanged, the normalised limit, and an offset that is the 64-bit wrap of `(page-1)*limit`, equal to it whenever it fits. |
| `Controllers.GruposRequestOverflows` | controllers/grupo.go:28-29 | For page 4611686018427387905 and limit 2 the request as written passes a negative offset. |
| `Controllers.GruposRequestCorrected` | controllers/grupo.go:21-48 | Corrected: the same choice and limit, with the non-negative saturating `Controllers.Offset`. |
| `Controllers.CorrectedRequestAgrees` | controllers/grupo.go:29 | The corrected and the written request are the same whenever `(page-1)*limit` fits in 64 bits. |
| `Controllers.GetGruposHandler` | controllers/grupo.go:19-76 | An error from the chosen call gives 500. Otherwise `data` is that call's result, and the metadata echoes totalItems, page and limit with totalPages from TotalPages. |
| `Controllers.GetGrupoHandler` | controllers/grupo.go:80-105 | A non-numeric id gives 400, a repository error 500, (nil, nil) 404, and a found group 200 with it. 500 happens only on a repository error, so not-found is never 500. |
| `Controllers.HasRequiredFields` | controllers/grupo.go:117-127 | A group is valid when nombre, numeroResolucion, lineaInvestigacion and tipoInvestigacion are non-empty and fechaRegistro is not the zero time. |
| `Controllers.CreateGrupoHandler` | controllers/grupo.go:108-140 | 400 without touching the store exactly when the body does not decode, one of the four strings is empty, or fechaRegistro is zero. Otherwise CreateGrupo's effect, with 500 on its error or 201 with the new ID. |
| `Controllers.CreateWithDetailsOutcome` | controllers/grupo.go:240-308 | The reference outcome of the flow: 400 exactly for an undecodable body; the store is unchanged or holds the committed group with all its links; a 201 carries the group under the next id; a 500 leaves the store unchanged. |
| `Controllers.CreateWithDetailsAllOrNothing` | controllers/grupo.go:240-308 | The store is either unchanged or gains exactly the group and one link per entry. It gains them exactly when no step fails, and then the response is 201 with the new ID. 400 opens no transaction, and every 500 leaves the store unchanged. A failed Begin, group insert or link insert gives 500. |
| `Controllers.CreateGrupoWithDetailsHandler` | controllers/grupo.go:240-308 | The imperative flow (begin, group insert, link loop, deferred commit or rollback) produces exactly the store and response of `CreateWithDetailsOutcome`. |
| `Handlers.IsSearch` | handlers/grupo_handler.go:32 | The handler searches when groupName, investigatorName or year is non-empty. |
| `Handlers.GetGruposHandler` | handlers/grupo_handler.go:23-49 | When IsSearch, 200 with exactly the matched rows or 500 exactly when the search fails; otherwise 200 with every stored group or 500 exactly when the listing fails. |
| `Handlers.UpdateGrupoHandler` | handlers/grupo_handler.go:101-130 | A non-numeric id or an undecodable body gives 400 without touching the store. Otherwise the path id overwrites the body's ID before UpdateGrupo. |
| `Handlers.CreateWithDetailsOutcome` | handlers/grupo_handler.go:194-256 | The reference outcome as written: 400 exactly for an undecodable body; the store is unchanged or holds the group with the links before the first failing one; a 201 carries the group under the next id; a 500 leaves the store unchanged. |
| `Handlers.CreateWithDetailsCases` | handlers/grupo_handler.go:203-254 | A group-insert or LastInsertId failure rolls back and writes nothing. Full success commits exactly the group and every link with 201. A failed commit persists nothing. With it, a 201 is already written after all links succeed (201 with trailing error), and after a link failure it is a 500. |
| `Handlers.ShadowedErrCommitsPartially` | handlers/grupo_handler.go:209-245 | A failing link insert at position k commits the group and the k links before it, and writes no response. |
| `Handlers.ShadowedErrExample` | handlers/grupo_handler.go:239-245 | One entry whose insert fails leaves the new group stored without links. |
| `Handlers.CreateGrupoWithDetailsHandler` | handlers/grupo_handler.go:194-256 | The imperative flow, with the loop-local err, produces exactly the store and response of `Handlers.CreateWithDetailsOutcome`. |
| `Handlers.CorrectedOutcome` | handlers/grupo_handler.go:194-256 | The reference outcome with the loop assigning the outer err: the store is unchanged or holds the group with every link; a 500 or a missing response leaves the store unchanged. |
| `Handlers.CorrectedAllOrNothing` | handlers/grupo_handler.go:239-245 | With the loop assigning the outer err, the flow is all-or-nothing. |
| `Handlers.CreateGrupoWithDetailsCorrected` | handlers/grupo_handler.go:194-256 | The corrected imperative flow produces exactly the store and response of `Handlers.CorrectedOutcome`. |

## Left out

- I/O and glue:
  - JSON decoding and encoding, response headers and logging. A body that does not decode is `None`, and each handler is reduced to a `Response` outcome.
  - Go's implicit 200 for a handler that writes nothing is shown as `NoResponse`.
- `strconv.Atoi` itself, which is an input (`Option<int>`) bounded to Go's 64-bit range by `Pagination.AtoiResult`.
- SQL semantics:
  - `LIKE` matching, collation, `YEAR()` and `DISTINCT` over the joins.
  - What the database returns for a search query is an input (`matched`).
  - In a full-table listing, and in the `WHERE idGrupo = ?` listing of `DetalleRepo.GetDetallesByGrupoID`, rows come back in ascending id order. SQL leaves this order unspecified without `ORDER BY`.
- Foreign-key and other constraint violations appear only as injected insert failures. Only the fmt.Errorf prefix of an error is kept, not the driver's cause.
- Database-assigned timestamps declared in models/grupo.go and models/investigador.go. `time.Time` is reduced to an integer instant that is zero exactly when `IsZero()` holds.
- Database.Store.Restore: a rollback also puts back each table's next id. With go-sql-driver/mysql over InnoDB, AUTO_INCREMENT values taken inside a rolled-back transaction, and by a failed INSERT, are not given back, so real ids can have gaps. The model never leaves gaps.
- Controllers.CreateWithDetailsAllOrNothing: its "store unchanged" (`db' == db`) covers the id counters as well as the rows. Under MySQL only the rows are unchanged (see Database.Store.Restore).
- Handlers.CorrectedAllOrNothing: the same as for Controllers.CreateWithDetailsAllOrNothing.
- Store model: a failed `tx.Commit` is assumed to persist nothing.
- The panic/recover branches of the deferred functions, transaction isolation, and concurrent requests.
- Controllers.TotalPages: uses integer ceiling division, not `math.Ceil` over float64. The two differ only above 2^53 items.
- Controllers.GetGruposHandler: the paginated SearchGrupos (eight arguments) and GetAllGrupos (limit, offset) it calls are not part of this model. Their results, and any failure they report, are inputs.
- Handlers not modelled:
  - GetGrupoDetailsHandler and GetGruposByInvestigadorHandler call repository functions that are not part of this model.
  - handlers/investigador_handler.go is HTTP glue that repeats the search-or-list choice modelled for groups.
  - The handlers' GetGrupoHandler and DeleteGrupoHandler, and the controllers' UpdateGrupoHandler and DeleteGrupoHandler, are the same repository call plus status mapping as the modelled handlers (`Controllers.GetGrupoHandler`, `Handlers.UpdateGrupoHandler`).
  - The handlers' CreateGrupoHandler (handlers/grupo_handler.go:80-98) is `Controllers.CreateGrupoHandler` without the required-field check of controllers/grupo.go:117-127: every body that decodes reaches CreateGrupo.
- GrupoRepo.SearchPlaceholdersMatchArguments: states the placeholders appended to the base, and does not prove that the fixed base text itself contains no `?`.
- InvestigadorRepo.SearchPlaceholdersMatchArguments: same as for GrupoRepo.SearchPlaceholdersMatchArguments.
- Models: PaginationMetadata and PaginatedResponse are used by controllers/grupo.go but not declared in the model files shown. Their shape follows the composite literals at controllers/grupo.go:61-72.
- Database connection, environment reading, routing and server start (database/connection.go, main.go, routes/routes.go) are not part of this model.

## Findings

| source | as written | input that shows it | evidently intended | confidence | as-written member | corrected member |
|---|---|---|---|---|---|---|
| handlers/grupo_handler.go:240 | `_, err :=` declares a new `err` in the loop body, so the deferred check at :213 still sees the function-level `err == nil` and commits | a request with one investigator whose link insert fails | a failing link insert rolls the whole transaction back, as the comment at :243 says | high; not executed | `Handlers.ShadowedErrExample` | `Handlers.CreateGrupoWithDetailsCorrected` |
| controllers/grupo.go:29 | `offset := (page - 1) * limit` in 64-bit int wraps round for large pages | page = 4611686018427387905, limit = 2 gives offset −2^63 | a non-negative offset (the rows of the earlier pages) | medium; not executed | `Controllers.GruposRequestOverflows` | `Controllers.GruposRequestCorrected` |

The corrected transaction's all-or-nothing property is `Handlers.CorrectedAllOrNothing`. The as-written partial commit in general is `Handlers.ShadowedErrCommitsPartially`. The paginated listing as written is `Controllers.GruposRequest`, with the negative offset shown by `Controllers.GruposRequestOverflows`. The corrected request is `Controllers.GruposRequestCorrected`.
