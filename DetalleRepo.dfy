/** repository/detalle_grupo_investigador_repo.go: the group/investigator link table. */
module DetalleRepo {
  import opened Wrappers
  import opened Models
  import opened Sql
  import opened Database

  const ByGrupoContexts := ListContexts(
    "error querying group-investigator details by group ID",
    "error scanning group-investigator detail row",
    "error after iterating through group-investigator detail rows")

  /**
   * INSERT and LastInsertId. The struct passed by pointer is returned as
   * detalle'; its ID is written only when both steps succeed.
   */
  method CreateDetalleGrupoInvestigador(s: Store, detalle: Detalle, execFails: bool, lastIdFails: bool) returns (detalle': Detalle, err: Option<Error>)
    requires s.Valid()
    modifies s
    ensures s.Valid()
    ensures s.grupos == old(s.grupos) && s.investigadores == old(s.investigadores)
    ensures execFails ==> s.detalles == old(s.detalles) && detalle' == detalle && err == Some(Error("error inserting group-investigator detail"))
    ensures !execFails ==> s.detalles == Insert(old(s.detalles), detalle.(id := old(s.detalles.next)))
    ensures !execFails && lastIdFails ==> detalle' == detalle && err == Some(Error("error getting last insert ID for group-investigator detail"))
    ensures !execFails && !lastIdFails ==> detalle' == detalle.(id := old(s.detalles.next)) && err.None?
  {
    if execFails {
      return detalle, Some(Error("error inserting group-investigator detail"));
    }
    var id := s.detalles.next;
    s.detalles := Insert(s.detalles, detalle.(id := id));
    if lastIdFails {
      return detalle, Some(Error("error getting last insert ID for group-investigator detail"));
    }
    detalle' := detalle.(id := id);
    err := None;
  }

  /** The links of group gid among rows, in their order: the result set of `WHERE idGrupo = ?`. */
  function LinksOf(rows: seq<Detalle>, gid: int): seq<Detalle>
  {
    if rows == [] then []
    else (if rows[0].idGrupo == gid then [rows[0]] else []) + LinksOf(rows[1..], gid)
  }

  lemma {:induction false} LinksOfMembers(rows: seq<Detalle>, gid: int, d: Detalle)
    ensures d in LinksOf(rows, gid) <==> d in rows && d.idGrupo == gid
  {
    if rows != [] {
      LinksOfMembers(rows[1..], gid, d);
      assert rows == [rows[0]] + rows[1..];
    }
  }

  /** The link table holds no row of group gid. */
  predicate NoLinks(t: Table<Detalle>, gid: int)
  {
    forall k :: k in t.rows ==> t.rows[k].idGrupo != gid
  }

  /** The links of group gid, read through the row loop: exactly the stored rows with that idGrupo. */
  method GetDetallesByGrupoID(s: Store, gid: int, f: ListFaults) returns (detalles: Option<seq<Detalle>>, err: Option<Error>)
    requires s.Valid()
    ensures err.None? <==> ListSucceeds(f, |LinksOf(Rows(s.detalles), gid)|)
    ensures err.Some? ==> detalles.None?
    ensures err.None? ==> detalles == Some(LinksOf(Rows(s.detalles), gid))
    ensures err == ListError(f, |LinksOf(Rows(s.detalles), gid)|, ByGrupoContexts)
    ensures detalles.Some? ==> forall d :: d in detalles.value <==> d.idGrupo == gid && exists k :: k in s.detalles.rows && s.detalles.rows[k] == d
    ensures detalles.Some? && NoLinks(s.detalles, gid) ==> detalles.value == []
  {
    var links := LinksOf(Rows(s.detalles), gid);
    detalles, err := QueryRows(links, f, ByGrupoContexts);
    forall d: Detalle
      ensures d in links <==> d.idGrupo == gid && exists k :: k in s.detalles.rows && s.detalles.rows[k] == d
    {
      LinksOfMembers(Rows(s.detalles), gid, d);
      RowsComplete(s.detalles, d);
    }
    if detalles.Some? && detalles.value != [] {
      assert detalles.value[0] in detalles.value;
    }
  }

  /** DELETE ... WHERE idDetalleGI = id: only that row goes; an absent id is not an error. */
  method DeleteDetalleGrupoInvestigador(s: Store, id: int, fails: bool) returns (err: Option<Error>)
    requires s.Valid()
    modifies s
    ensures s.Valid()
    ensures s.grupos == old(s.grupos) && s.investigadores == old(s.investigadores)
    ensures err.Some? <==> fails
    ensures fails ==> s.detalles == old(s.detalles) && err == Some(Error("error deleting group-investigator detail"))
    ensures !fails ==> s.detalles == Remove(old(s.detalles), id) && id !in s.detalles.rows
    ensures id !in old(s.detalles.rows) ==> s.detalles == old(s.detalles)
    ensures forall k :: k in old(s.detalles.rows) && k != id ==> k in s.detalles.rows && s.detalles.rows[k] == old(s.detalles.rows[k])
  {
    if fails {
      return Some(Error("error deleting group-investigator detail"));
    }
    s.detalles := Remove(s.detalles, id);
    err := None;
  }

  /** (nil, nil) for an absent id, (nil, err) for a failed query, (row, nil) otherwise. */
  method GetDetalleGrupoInvestigadorByID(s: Store, id: int, fails: bool) returns (detalle: Option<Detalle>, err: Option<Error>)
    ensures fails ==> detalle.None? && err == Some(Error("error getting group-investigator detail by ID"))
    ensures !fails && id !in s.detalles.rows ==> detalle.None? && err.None?
    ensures !fails && id in s.detalles.rows ==> detalle == Some(s.detalles.rows[id]) && err.None?
  {
    var r := FromScan(ScanById(s.detalles, id, fails), "error getting group-investigator detail by ID");
    detalle, err := r.0, r.1;
  }

  /** UPDATE ... SET idGrupo, idInvestigador, tipoRelacion WHERE idDetalleGI = detalle.ID. */
  method UpdateDetalleGrupoInvestigador(s: Store, detalle: Detalle, fails: bool) returns (err: Option<Error>)
    requires s.Valid()
    modifies s
    ensures s.Valid()
    ensures s.grupos == old(s.grupos) && s.investigadores == old(s.investigadores)
    ensures err.Some? <==> fails
    ensures fails ==> s.detalles == old(s.detalles) && err == Some(Error("error updating group-investigator detail"))
    ensures !fails ==> s.detalles == Replace(old(s.detalles), detalle.id, detalle)
    ensures !fails && detalle.id in old(s.detalles.rows) ==> s.detalles.rows[detalle.id] == detalle
    ensures detalle.id !in old(s.detalles.rows) ==> s.detalles == old(s.detalles)
    ensures forall k :: k in old(s.detalles.rows) && k != detalle.id ==> k in s.detalles.rows && s.detalles.rows[k] == old(s.detalles.rows[k])
  {
    if fails {
      return Some(Error("error updating group-investigator detail"));
    }
    s.detalles := Replace(s.detalles, detalle.id, detalle);
    err := None;
  }
}
