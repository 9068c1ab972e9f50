/** repository/grupo_repo.go: the Grupo table operations and the group search query. */
module GrupoRepo {
  import opened Wrappers
  import opened Models
  import opened Sql
  import opened Database

  const ListAllContexts := ListContexts("error querying groups", "error scanning group row", "error after iterating through group rows")
  const SearchContexts := ListContexts("error searching groups", "error scanning group row during search", "error after iterating through group search rows")

  /** Lists the whole Grupo table. */
  method GetAllGrupos(s: Store, f: ListFaults) returns (grupos: Option<seq<Grupo>>, err: Option<Error>)
    requires s.Valid()
    ensures err.None? <==> ListSucceeds(f, |Rows(s.grupos)|)
    ensures err.Some? ==> grupos.None?
    ensures err.None? ==> grupos == Some(Rows(s.grupos))
    ensures err == ListError(f, |Rows(s.grupos)|, ListAllContexts)
    ensures grupos.Some? ==> forall g :: g in grupos.value <==> exists k :: k in s.grupos.rows && s.grupos.rows[k] == g
  {
    grupos, err := QueryRows(Rows(s.grupos), f, ListAllContexts);
    forall g: Grupo {
      RowsComplete(s.grupos, g);
    }
  }

  /** (nil, nil) for an absent id, (nil, err) for a failed query, (row, nil) otherwise. */
  method GetGrupoByID(s: Store, id: int, fails: bool) returns (grupo: Option<Grupo>, err: Option<Error>)
    ensures fails ==> grupo.None? && err == Some(Error("error getting group by ID"))
    ensures !fails && id !in s.grupos.rows ==> grupo.None? && err.None?
    ensures !fails && id in s.grupos.rows ==> grupo == Some(s.grupos.rows[id]) && err.None?
  {
    var r := FromScan(ScanById(s.grupos, id, fails), "error getting group by ID");
    grupo, err := r.0, r.1;
  }

  /**
   * INSERT and LastInsertId. The struct the caller passed by pointer is
   * returned as g'. Its ID is written only when both steps succeed, although
   * a failing LastInsertId comes after the row has been stored.
   */
  method CreateGrupo(s: Store, g: Grupo, execFails: bool, lastIdFails: bool) returns (g': Grupo, err: Option<Error>)
    requires s.Valid()
    modifies s
    ensures s.Valid()
    ensures s.investigadores == old(s.investigadores) && s.detalles == old(s.detalles)
    ensures execFails ==> s.grupos == old(s.grupos) && g' == g && err == Some(Error("error inserting group"))
    ensures !execFails ==> s.grupos == Insert(old(s.grupos), g.(id := old(s.grupos.next)))
    ensures !execFails && lastIdFails ==> g' == g && err == Some(Error("error getting last insert ID"))
    ensures !execFails && !lastIdFails ==> g' == g.(id := old(s.grupos.next)) && err.None?
  {
    if execFails {
      return g, Some(Error("error inserting group"));
    }
    var id := s.grupos.next;
    s.grupos := Insert(s.grupos, g.(id := id));
    if lastIdFails {
      return g, Some(Error("error getting last insert ID"));
    }
    g' := g.(id := id);
    err := None;
  }

  /** UPDATE ... WHERE idGrupo = g.ID: an absent id affects no row and is not an error. */
  method UpdateGrupo(s: Store, g: Grupo, fails: bool) returns (err: Option<Error>)
    requires s.Valid()
    modifies s
    ensures s.Valid()
    ensures s.investigadores == old(s.investigadores) && s.detalles == old(s.detalles)
    ensures err.Some? <==> fails
    ensures fails ==> s.grupos == old(s.grupos) && err == Some(Error("error updating group"))
    ensures !fails ==> s.grupos == Replace(old(s.grupos), g.id, g)
    ensures g.id !in old(s.grupos.rows) ==> s.grupos == old(s.grupos)
    ensures forall k :: k in old(s.grupos.rows) && k != g.id ==> k in s.grupos.rows && s.grupos.rows[k] == old(s.grupos.rows[k])
  {
    if fails {
      return Some(Error("error updating group"));
    }
    s.grupos := Replace(s.grupos, g.id, g);
    err := None;
  }

  /** DELETE ... WHERE idGrupo = id: an absent id affects no row and is not an error. */
  method DeleteGrupo(s: Store, id: int, fails: bool) returns (err: Option<Error>)
    requires s.Valid()
    modifies s
    ensures s.Valid()
    ensures s.investigadores == old(s.investigadores) && s.detalles == old(s.detalles)
    ensures err.Some? <==> fails
    ensures fails ==> s.grupos == old(s.grupos) && err == Some(Error("error deleting group"))
    ensures !fails ==> s.grupos == Remove(old(s.grupos), id) && id !in s.grupos.rows
    ensures id !in old(s.grupos.rows) ==> s.grupos == old(s.grupos)
    ensures forall k :: k in old(s.grupos.rows) && k != id ==> k in s.grupos.rows && s.grupos.rows[k] == old(s.grupos.rows[k])
  {
    if fails {
      return Some(Error("error deleting group"));
    }
    s.grupos := Remove(s.grupos, id);
    err := None;
  }

  const SearchBase := "SELECT DISTINCT g.idGrupo, g.nombre, g.numeroResolucion, g.lineaInvestigacion, g.tipoInvestigacion, g.fechaRegistro, g.archivo FROM Grupo g JOIN Detalle_GrupoInvestigador dgi ON g.idGrupo = dgi.idGrupo JOIN Investigador i ON dgi.idInvestigador = i.idInvestigador WHERE 1=1"
  const NameFilter := " AND g.nombre LIKE ?"
  const InvestigatorFilter := " AND (i.nombre LIKE ? OR i.apellido LIKE ?)"
  const YearFilter := " AND YEAR(g.fechaRegistro) = ?"

  /** The filters a search applies, as (fragment, bound values) pairs in the order groupName, investigatorName, year. */
  function SearchClauses(groupName: string, investigatorName: string, year: string): seq<Clause>
  {
    FilterClauses(NameFilter, InvestigatorFilter, YearFilter, groupName, investigatorName, year)
  }

  /** SearchClauses over arbitrary fragment texts, so that facts about the clause list need not look inside the literals. */
  function FilterClauses(nameFilter: string, investigatorFilter: string, yearFilter: string, groupName: string, investigatorName: string, year: string): seq<Clause>
  {
    (if groupName != "" then [Clause(nameFilter, [Contains(groupName)])] else [])
    + (if investigatorName != "" then [Clause(investigatorFilter, [Contains(investigatorName), Contains(investigatorName)])] else [])
    + (if year != "" then [Clause(yearFilter, [year])] else [])
  }

  /** The query text and argument list SearchGrupos hands to db.Query. */
  method BuildSearchQuery(groupName: string, investigatorName: string, year: string) returns (query: string, args: seq<string>)
    ensures query == SearchBase + Fragments(SearchClauses(groupName, investigatorName, year))
    ensures args == Arguments(SearchClauses(groupName, investigatorName, year))
  {
    query := SearchBase;
    args := [];
    ghost var done: seq<Clause> := [];
    if groupName != "" {
      query := query + NameFilter;
      args := args + [Contains(groupName)];
      done := done + [Clause(NameFilter, [Contains(groupName)])];
    }
    if investigatorName != "" {
      query := query + InvestigatorFilter;
      args := args + [Contains(investigatorName), Contains(investigatorName)];
      done := done + [Clause(InvestigatorFilter, [Contains(investigatorName), Contains(investigatorName)])];
    }
    if year != "" {
      query := query + YearFilter;
      args := args + [year];
      done := done + [Clause(YearFilter, [year])];
    }
    assert done == SearchClauses(groupName, investigatorName, year);
    FragmentsOfClauses(groupName, investigatorName, year);
  }

  lemma FragmentsOfClauses(groupName: string, investigatorName: string, year: string)
    ensures var cs := SearchClauses(groupName, investigatorName, year);
      && Fragments(cs) == (if groupName != "" then NameFilter else "") + (if investigatorName != "" then InvestigatorFilter else "") + (if year != "" then YearFilter else "")
      && Arguments(cs) == (if groupName != "" then [Contains(groupName)] else []) + (if investigatorName != "" then [Contains(investigatorName), Contains(investigatorName)] else []) + (if year != "" then [year] else [])
  {
    var a := if groupName != "" then [Clause(NameFilter, [Contains(groupName)])] else [];
    var b := if investigatorName != "" then [Clause(InvestigatorFilter, [Contains(investigatorName), Contains(investigatorName)])] else [];
    var c := if year != "" then [Clause(YearFilter, [year])] else [];
    FragmentsAppend(a + b, c);
    FragmentsAppend(a, b);
    assert Fragments(a) == (if groupName != "" then NameFilter else "") && Arguments(a) == (if groupName != "" then [Contains(groupName)] else []);
    assert Fragments(b) == (if investigatorName != "" then InvestigatorFilter else "");
    assert Fragments(c) == (if year != "" then YearFilter else "");
  }

  /** With no filter the query is the bare base ending in WHERE 1=1 and nothing is bound. */
  lemma SearchWithoutFilters()
    ensures SearchBase + Fragments(SearchClauses("", "", "")) == SearchBase
    ensures Arguments(SearchClauses("", "", "")) == []
  {
  }

  lemma NameFilterPlaceholders()
    ensures Placeholders(NameFilter) == 1
  {
    assert NameFilter == " AND g.nombre LIKE " + "?" + "";
    OnePlaceholder(" AND g.nombre LIKE ", "");
  }

  lemma InvestigatorFilterPlaceholders()
    ensures Placeholders(InvestigatorFilter) == 2
  {
    assert InvestigatorFilter == " AND (i.nombre LIKE " + "?" + " OR i.apellido LIKE " + "?" + ")";
    TwoPlaceholders(" AND (i.nombre LIKE ", " OR i.apellido LIKE ", ")");
  }

  lemma YearFilterPlaceholders()
    ensures Placeholders(YearFilter) == 1
  {
    assert YearFilter == " AND YEAR(g.fechaRegistro) = " + "?" + "";
    OnePlaceholder(" AND YEAR(g.fechaRegistro) = ", "");
  }

  /**
   * The filters append exactly one placeholder per bound value: 1 for the
   * group name, 2 for the investigator name, 1 for the year.
   */
  lemma SearchPlaceholdersMatchArguments(groupName: string, investigatorName: string, year: string)
    ensures var cs := SearchClauses(groupName, investigatorName, year);
      && Placeholders(SearchBase + Fragments(cs)) == Placeholders(SearchBase) + |Arguments(cs)|
      && |Arguments(cs)| == (if groupName != "" then 1 else 0) + (if investigatorName != "" then 2 else 0) + (if year != "" then 1 else 0)
  {
    var cs := SearchClauses(groupName, investigatorName, year);
    NameFilterPlaceholders();
    InvestigatorFilterPlaceholders();
    YearFilterPlaceholders();
    FilterClausesWellFormed(NameFilter, InvestigatorFilter, YearFilter, groupName, investigatorName, year);
    AppendedPlaceholdersMatchArguments(SearchBase, cs);
    FragmentsOfClauses(groupName, investigatorName, year);
  }

  /** Fragments with 1, 2 and 1 placeholders make every filter clause bind as many values as it has placeholders. */
  lemma FilterClausesWellFormed(nameFilter: string, investigatorFilter: string, yearFilter: string, groupName: string, investigatorName: string, year: string)
    requires Placeholders(nameFilter) == 1 && Placeholders(investigatorFilter) == 2 && Placeholders(yearFilter) == 1
    ensures var cs := FilterClauses(nameFilter, investigatorFilter, yearFilter, groupName, investigatorName, year);
      forall k :: 0 <= k < |cs| ==> WellFormed(cs[k])
  {
    var a := if groupName != "" then [Clause(nameFilter, [Contains(groupName)])] else [];
    var b := if investigatorName != "" then [Clause(investigatorFilter, [Contains(investigatorName), Contains(investigatorName)])] else [];
    var c := if year != "" then [Clause(yearFilter, [year])] else [];
    AllWellFormedAppend(a, b);
    AllWellFormedAppend(a + b, c);
  }

  /** The query text depends only on which filters are non-empty: user text reaches the database only as bound values. */
  lemma SearchTextIndependentOfInput(groupName: string, investigatorName: string, year: string, groupName': string, investigatorName': string, year': string)
    requires (groupName == "") == (groupName' == "")
    requires (investigatorName == "") == (investigatorName' == "")
    requires (year == "") == (year' == "")
    ensures Fragments(SearchClauses(groupName, investigatorName, year)) == Fragments(SearchClauses(groupName', investigatorName', year'))
  {
    FragmentsOfClauses(groupName, investigatorName, year);
    FragmentsOfClauses(groupName', investigatorName', year');
  }

  /**
   * SearchGrupos: builds the query, runs it and scans the rows. What the
   * database returns for the query (LIKE, YEAR(), DISTINCT over the joins)
   * is the input `matched`.
   */
  method SearchGrupos(groupName: string, investigatorName: string, year: string, matched: seq<Grupo>, f: ListFaults)
    returns (query: string, args: seq<string>, grupos: Option<seq<Grupo>>, err: Option<Error>)
    ensures query == SearchBase + Fragments(SearchClauses(groupName, investigatorName, year))
    ensures args == Arguments(SearchClauses(groupName, investigatorName, year))
    ensures err.None? <==> ListSucceeds(f, |matched|)
    ensures err.None? ==> grupos == Some(matched)
    ensures err == ListError(f, |matched|, SearchContexts)
    ensures err.Some? ==> grupos.None?
  {
    query, args := BuildSearchQuery(groupName, investigatorName, year);
    grupos, err := QueryRows(matched, f, SearchContexts);
  }
}
