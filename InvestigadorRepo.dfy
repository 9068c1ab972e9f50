/** repository/investigador_repo.go: the Investigador table operations and the investigator search query. */
module InvestigadorRepo {
  import opened Wrappers
  import opened Models
  import opened Sql
  import opened Database

  const ListAllContexts := ListContexts("error querying investigators", "error scanning investigator row", "error after iterating through investigator rows")
  const SearchContexts := ListContexts("error searching investigators", "error scanning investigator row during search", "error after iterating through investigator search rows")

  /** Lists the whole Investigador table. */
  method GetAllInvestigadores(s: Store, f: ListFaults) returns (investigadores: Option<seq<Investigador>>, err: Option<Error>)
    requires s.Valid()
    ensures err.None? <==> ListSucceeds(f, |Rows(s.investigadores)|)
    ensures err.Some? ==> investigadores.None?
    ensures err.None? ==> investigadores == Some(Rows(s.investigadores))
    ensures err == ListError(f, |Rows(s.investigadores)|, ListAllContexts)
    ensures investigadores.Some? ==> forall i :: i in investigadores.value <==> exists k :: k in s.investigadores.rows && s.investigadores.rows[k] == i
  {
    investigadores, err := QueryRows(Rows(s.investigadores), f, ListAllContexts);
    forall i: Investigador {
      RowsComplete(s.investigadores, i);
    }
  }

  /** (nil, nil) for an absent id, (nil, err) for a failed query, (row, nil) otherwise. */
  method GetInvestigadorByID(s: Store, id: int, fails: bool) returns (inv: Option<Investigador>, err: Option<Error>)
    ensures fails ==> inv.None? && err == Some(Error("error getting investigator by ID"))
    ensures !fails && id !in s.investigadores.rows ==> inv.None? && err.None?
    ensures !fails && id in s.investigadores.rows ==> inv == Some(s.investigadores.rows[id]) && err.None?
  {
    var r := FromScan(ScanById(s.investigadores, id, fails), "error getting investigator by ID");
    inv, err := r.0, r.1;
  }

  /**
   * INSERT and LastInsertId. The struct passed by pointer is returned as
   * inv'; its ID is written only when both steps succeed.
   */
  method CreateInvestigador(s: Store, inv: Investigador, execFails: bool, lastIdFails: bool) returns (inv': Investigador, err: Option<Error>)
    requires s.Valid()
    modifies s
    ensures s.Valid()
    ensures s.grupos == old(s.grupos) && s.detalles == old(s.detalles)
    ensures execFails ==> s.investigadores == old(s.investigadores) && inv' == inv && err == Some(Error("error inserting investigator"))
    ensures !execFails ==> s.investigadores == Insert(old(s.investigadores), inv.(id := old(s.investigadores.next)))
    ensures !execFails && lastIdFails ==> inv' == inv && err == Some(Error("error getting last insert ID"))
    ensures !execFails && !lastIdFails ==> inv' == inv.(id := old(s.investigadores.next)) && err.None?
  {
    if execFails {
      return inv, Some(Error("error inserting investigator"));
    }
    var id := s.investigadores.next;
    s.investigadores := Insert(s.investigadores, inv.(id := id));
    if lastIdFails {
      return inv, Some(Error("error getting last insert ID"));
    }
    inv' := inv.(id := id);
    err := None;
  }

  /** UPDATE ... WHERE idInvestigador = inv.ID: an absent id affects no row and is not an error. */
  method UpdateInvestigador(s: Store, inv: Investigador, fails: bool) returns (err: Option<Error>)
    requires s.Valid()
    modifies s
    ensures s.Valid()
    ensures s.grupos == old(s.grupos) && s.detalles == old(s.detalles)
    ensures err.Some? <==> fails
    ensures fails ==> s.investigadores == old(s.investigadores) && err == Some(Error("error updating investigator"))
    ensures !fails ==> s.investigadores == Replace(old(s.investigadores), inv.id, inv)
    ensures inv.id !in old(s.investigadores.rows) ==> s.investigadores == old(s.investigadores)
    ensures forall k :: k in old(s.investigadores.rows) && k != inv.id ==> k in s.investigadores.rows && s.investigadores.rows[k] == old(s.investigadores.rows[k])
  {
    if fails {
      return Some(Error("error updating investigator"));
    }
    s.investigadores := Replace(s.investigadores, inv.id, inv);
    err := None;
  }

  /** DELETE ... WHERE idInvestigador = id: an absent id affects no row and is not an error. */
  method DeleteInvestigador(s: Store, id: int, fails: bool) returns (err: Option<Error>)
    requires s.Valid()
    modifies s
    ensures s.Valid()
    ensures s.grupos == old(s.grupos) && s.detalles == old(s.detalles)
    ensures err.Some? <==> fails
    ensures fails ==> s.investigadores == old(s.investigadores) && err == Some(Error("error deleting investigator"))
    ensures !fails ==> s.investigadores == Remove(old(s.investigadores), id) && id !in s.investigadores.rows
    ensures id !in old(s.investigadores.rows) ==> s.investigadores == old(s.investigadores)
    ensures forall k :: k in old(s.investigadores.rows) && k != id ==> k in s.investigadores.rows && s.investigadores.rows[k] == old(s.investigadores.rows[k])
  {
    if fails {
      return Some(Error("error deleting investigator"));
    }
    s.investigadores := Remove(s.investigadores, id);
    err := None;
  }

  const SearchBase := "SELECT idInvestigador, nombre, apellido, rol FROM Investigador WHERE 1=1"
  const NameFilter := " AND (nombre LIKE ? OR apellido LIKE ?)"

  /** The one optional filter: the name, matched against nombre or apellido. */
  function SearchClauses(name: string): seq<Clause>
  {
    FilterClauses(NameFilter, name)
  }

  /** SearchClauses over an arbitrary fragment text, so that facts about the clause list need not look inside the literal. */
  function FilterClauses(nameFilter: string, name: string): seq<Clause>
  {
    if name != "" then [Clause(nameFilter, [Contains(name), Contains(name)])] else []
  }

  /** The query text and argument list SearchInvestigadores hands to db.Query. */
  method BuildSearchQuery(name: string) returns (query: string, args: seq<string>)
    ensures query == SearchBase + Fragments(SearchClauses(name))
    ensures args == Arguments(SearchClauses(name))
  {
    query := SearchBase;
    args := [];
    if name != "" {
      query := query + NameFilter;
      var searchPattern := Contains(name);
      args := args + [searchPattern, searchPattern];
    }
    FragmentsOfClauses(name);
  }

  lemma FragmentsOfClauses(name: string)
    ensures Fragments(SearchClauses(name)) == (if name != "" then NameFilter else "")
    ensures Arguments(SearchClauses(name)) == (if name != "" then [Contains(name), Contains(name)] else [])
  {
    if name != "" {
      var c := Clause(NameFilter, [Contains(name), Contains(name)]);
      assert SearchClauses(name) == [c];
      assert Fragments([c]) == NameFilter + Fragments([]);
      assert Arguments([c]) == c.args + Arguments([]);
    }
  }

  /** With an empty name the query is the bare base ending in WHERE 1=1 and nothing is bound. */
  lemma SearchWithoutFilters()
    ensures SearchBase + Fragments(SearchClauses("")) == SearchBase
    ensures Arguments(SearchClauses("")) == []
  {
  }

  lemma NameFilterPlaceholders()
    ensures Placeholders(NameFilter) == 2
  {
    assert NameFilter == " AND (nombre LIKE " + "?" + " OR apellido LIKE " + "?" + ")";
    TwoPlaceholders(" AND (nombre LIKE ", " OR apellido LIKE ", ")");
  }

  lemma FilterClausesWellFormed(nameFilter: string, name: string)
    requires Placeholders(nameFilter) == 2
    ensures var cs := FilterClauses(nameFilter, name);
      forall k :: 0 <= k < |cs| ==> WellFormed(cs[k])
  {
  }

  /**
   * A non-empty name appends one fragment with two placeholders and binds
   * the same pattern twice; the placeholder count always matches the
   * argument count.
   */
  lemma SearchPlaceholdersMatchArguments(name: string)
    ensures var cs := SearchClauses(name);
      && Placeholders(SearchBase + Fragments(cs)) == Placeholders(SearchBase) + |Arguments(cs)|
      && |Arguments(cs)| == (if name != "" then 2 else 0)
      && (name != "" ==> Arguments(cs) == [Contains(name), Contains(name)])
  {
    var cs := SearchClauses(name);
    NameFilterPlaceholders();
    FilterClausesWellFormed(NameFilter, name);
    AppendedPlaceholdersMatchArguments(SearchBase, cs);
    FragmentsOfClauses(name);
  }

  /** The query text depends only on whether the name is empty: the name reaches the database only as a bound value. */
  lemma SearchTextIndependentOfInput(name: string, name': string)
    requires (name == "") == (name' == "")
    ensures Fragments(SearchClauses(name)) == Fragments(SearchClauses(name'))
  {
    FragmentsOfClauses(name);
    FragmentsOfClauses(name');
  }

  /**
   * SearchInvestigadores: builds the query, runs it and scans the rows.
   * What the database returns for the query is the input `matched`.
   */
  method SearchInvestigadores(name: string, matched: seq<Investigador>, f: ListFaults)
    returns (query: string, args: seq<string>, investigadores: Option<seq<Investigador>>, err: Option<Error>)
    ensures query == SearchBase + Fragments(SearchClauses(name))
    ensures args == Arguments(SearchClauses(name))
    ensures err.None? <==> ListSucceeds(f, |matched|)
    ensures err.None? ==> investigadores == Some(matched)
    ensures err == ListError(f, |matched|, SearchContexts)
    ensures err.Some? ==> investigadores.None?
  {
    query, args := BuildSearchQuery(name);
    investigadores, err := QueryRows(matched, f, SearchContexts);
  }
}
