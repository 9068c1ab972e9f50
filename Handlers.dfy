/**
 * handlers/grupo_handler.go: the search-or-list choice, the update whose
 * path id overrides the body's, and the create-group-with-details
 * transaction, whose link loop declares its own `err`.
 */
module Handlers {
  import opened Wrappers
  import opened Models
  import opened Sql
  import opened Database
  import opened Transaction
  import GrupoRepo

  /** The handler searches when any of its three filters is set. */
  predicate IsSearch(groupName: string, investigatorName: string, year: string)
  {
    groupName != "" || investigatorName != "" || year != ""
  }

  /**
   * GetGruposHandler: the search when any of the three filters is set,
   * the whole table otherwise. matched is what the database returns for the
   * search query; f are the failures of whichever query runs.
   */
  method GetGruposHandler(s: Store, groupName: string, investigatorName: string, year: string, matched: seq<Grupo>, f: ListFaults)
    returns (resp: Response<seq<Grupo>>)
    requires s.Valid()
    ensures resp.ServerError? || resp.Ok?
    ensures IsSearch(groupName, investigatorName, year) ==> (resp.Ok? <==> ListSucceeds(f, |matched|))
    ensures IsSearch(groupName, investigatorName, year) && resp.Ok? ==> resp.body == matched
    ensures !IsSearch(groupName, investigatorName, year) ==> (resp.Ok? <==> ListSucceeds(f, |Rows(s.grupos)|))
    ensures !IsSearch(groupName, investigatorName, year) && resp.Ok? ==> resp.body == Rows(s.grupos)
  {
    var grupos: Option<seq<Grupo>>;
    var err: Option<Error>;
    if groupName != "" || investigatorName != "" || year != "" {
      var query, args;
      query, args, grupos, err := GrupoRepo.SearchGrupos(groupName, investigatorName, year, matched, f);
    } else {
      grupos, err := GrupoRepo.GetAllGrupos(s, f);
    }
    if err.Some? {
      return ServerError;
    }
    resp := Ok(grupos.value);
  }

  /**
   * UpdateGrupoHandler: id is what strconv.Atoi made of the path segment,
   * body None when the JSON does not decode. The path id replaces whatever
   * ID the body carried.
   */
  method UpdateGrupoHandler(s: Store, id: Option<int>, body: Option<Grupo>, fails: bool) returns (resp: Response<Grupo>)
    requires s.Valid()
    modifies s
    ensures s.Valid()
    ensures resp.BadRequest? <==> id.None? || body.None?
    ensures resp.BadRequest? || fails ==> s.State() == old(s.State())
    ensures !resp.BadRequest? && fails ==> resp.ServerError?
    ensures !resp.BadRequest? && !fails ==>
      && s.grupos == Replace(old(s.grupos), id.value, body.value.(id := id.value))
      && resp == Ok(body.value.(id := id.value))
    ensures s.investigadores == old(s.investigadores) && s.detalles == old(s.detalles)
  {
    if id.None? {
      return BadRequest;
    }
    if body.None? {
      return BadRequest;
    }
    var g := body.value;
    g := g.(id := id.value);
    var err := GrupoRepo.UpdateGrupo(s, g, fails);
    if err.Some? {
      return ServerError;
    }
    return Ok(g);
  }

  /**
   * What the handler as written leaves in the store and writes. The
   * function-level err is set only by the group insert and by
   * LastInsertId; a failing link insert sets the loop's own err, so the
   * deferred function commits the group and the links before it. Nothing
   * is written on those early returns, so a failing commit is reported by
   * a plain 500, or after the 201 on the success path.
   */
  function CreateWithDetailsOutcome(db: Db, body: Option<CreateRequest>, f: TxFaults): (r: (Db, Response<Grupo>))
    ensures r.1.BadRequest? <==> body.None?
    ensures body.None? ==> r.0 == db
    ensures body.Some? ==> r.0 == db || r.0 == CommitGroup(db, body.value.grupo, body.value.investigadores[..FirstFailed(f.linkFails, |body.value.investigadores|)])
    ensures r.1.Created? ==> body.Some? && r.1.body == body.value.grupo.(id := db.grupos.next)
    ensures r.1.ServerError? ==> r.0 == db
  {
    if body.None? then (db, BadRequest)
    else if f.beginFails then (db, ServerError)
    else if f.groupInsertFails || f.lastIdFails then (db, NoResponse)
    else
      var req := body.value;
      var n := |req.investigadores|;
      var k := FirstFailed(f.linkFails, n);
      var g' := req.grupo.(id := db.grupos.next);
      if k < n then
        (if f.commitFails then (db, ServerError) else (CommitGroup(db, req.grupo, req.investigadores[..k]), NoResponse))
      else
        assert req.investigadores[..k] == req.investigadores;
        (if f.commitFails then (db, Created(g', true)) else (CommitGroup(db, req.grupo, req.investigadores), Created(g', false)))
  }

  /**
   * A failing link insert at position k does not roll back: the group and
   * the k links before it are committed, and no response is written.
   */
  lemma ShadowedErrCommitsPartially(db: Db, req: CreateRequest, f: TxFaults, k: nat)
    requires DbValid(db)
    requires !f.beginFails && !f.groupInsertFails && !f.lastIdFails && !f.commitFails
    requires k < |req.investigadores| && k in f.linkFails
    requires forall j :: 0 <= j < k ==> j !in f.linkFails
    ensures var (db', resp) := CreateWithDetailsOutcome(db, Some(req), f);
      && resp == NoResponse
      && CommittedExactly(db, db', req.grupo, req.investigadores[..k])
      && db.grupos.next !in db.grupos.rows && db.grupos.next in db'.grupos.rows
  {
    CommitGroupExactly(db, req.grupo, req.investigadores[..k]);
  }

  /** The smallest instance: one entry whose insert fails leaves the group stored without any link. */
  lemma ShadowedErrExample(db: Db, g: Grupo, rel: Relationship)
    requires DbValid(db)
    ensures var f := TxFaults(false, false, false, {0}, false);
      var (db', resp) := CreateWithDetailsOutcome(db, Some(CreateRequest(g, [rel])), f);
      && resp == NoResponse
      && db'.grupos.rows == db.grupos.rows[db.grupos.next := g.(id := db.grupos.next)]
      && db'.detalles == db.detalles
      && db' != db
  {
    var f := TxFaults(false, false, false, {0}, false);
    var req := CreateRequest(g, [rel]);
    assert FirstFailed(f.linkFails, 1) == 0;
    assert req.investigadores[..0] == [];
    assert db.grupos.next !in db.grupos.rows;
    var db' := CreateWithDetailsOutcome(db, Some(req), f).0;
    assert db.grupos.next in db'.grupos.rows;
  }

  /**
   * The full-success and failure cases of the handler as written: success
   * commits exactly the group and every link; a group or LastInsertId
   * failure rolls back without writing a response.
   */
  lemma CreateWithDetailsCases(db: Db, req: CreateRequest, f: TxFaults)
    requires DbValid(db)
    requires !f.beginFails
    ensures var (db', resp) := CreateWithDetailsOutcome(db, Some(req), f);
      && (f.groupInsertFails || f.lastIdFails ==> db' == db && resp == NoResponse)
      && (!f.groupInsertFails && !f.lastIdFails && !f.commitFails && (forall i :: 0 <= i < |req.investigadores| ==> i !in f.linkFails) ==>
            CommittedExactly(db, db', req.grupo, req.investigadores) && resp == Created(req.grupo.(id := db.grupos.next), false))
      && (f.commitFails ==> db' == db)
      && (!f.groupInsertFails && !f.lastIdFails && f.commitFails && (forall i :: 0 <= i < |req.investigadores| ==> i !in f.linkFails) ==>
            resp == Created(req.grupo.(id := db.grupos.next), true))
      && (!f.groupInsertFails && !f.lastIdFails && f.commitFails && (exists i :: 0 <= i < |req.investigadores| && i in f.linkFails) ==>
            resp == ServerError)
  {
    CommitGroupExactly(db, req.grupo, req.investigadores);
    var n := |req.investigadores|;
    if i :| 0 <= i < n && i in f.linkFails {
      assert FirstFailed(f.linkFails, n) <= i;
    }
  }

  /**
   * CreateGrupoWithDetailsHandler as written. `err` is the function-level
   * variable the deferred function reads; `linkErr` is the one `_, err :=`
   * declares inside the loop body. The deferred commit-or-rollback runs
   * after the labelled block, whichever way the block is left.
   */
  method CreateGrupoWithDetailsHandler(s: Store, body: Option<CreateRequest>, f: TxFaults) returns (resp: Response<Grupo>)
    requires s.Valid()
    modifies s
    ensures s.Valid()
    ensures (s.State(), resp) == CreateWithDetailsOutcome(old(s.State()), body, f)
  {
    if body.None? {
      return BadRequest;
    }
    var req := body.value;
    if f.beginFails {
      return ServerError;
    }
    var snapshot := s.State();
    var err := false;
    resp := NoResponse;
    ghost var linked := 0;
    label handler: {
      if f.groupInsertFails {
        err := true;
        break handler;
      }
      var grupoID := s.grupos.next;
      s.grupos := Insert(s.grupos, req.grupo.(id := grupoID));
      if f.lastIdFails {
        err := true;
        break handler;
      }
      var rels := req.investigadores;
      for i := 0 to |rels|
        invariant grupoID == snapshot.grupos.next
        invariant s.grupos == Insert(snapshot.grupos, req.grupo.(id := grupoID))
        invariant s.investigadores == snapshot.investigadores
        invariant s.detalles == InsertLinks(snapshot.detalles, grupoID, rels[..i])
        invariant forall j :: 0 <= j < i ==> j !in f.linkFails
        invariant !err && linked == i
      {
        var linkErr := i in f.linkFails;
        if linkErr {
          break handler;
        }
        assert rels[..i + 1][..i] == rels[..i];
        s.detalles := InsertLink(s.detalles, grupoID, rels[i]);
        linked := i + 1;
      }
      assert rels[..|rels|] == rels;
      var grupoToCreate := req.grupo.(id := grupoID);
      resp := Created(grupoToCreate, false);
    }
    ghost var n := |req.investigadores|;
    assert err <==> f.groupInsertFails || f.lastIdFails;
    assert !err ==> 0 <= linked <= n && linked == FirstFailed(f.linkFails, n);
    assert !err ==> s.State() == CommitGroup(snapshot, req.grupo, req.investigadores[..linked]);
    assert !err ==> (resp.NoResponse? <==> linked < n) && (linked == n ==> resp == Created(req.grupo.(id := snapshot.grupos.next), false));
    if err {
      s.Restore(snapshot);
    } else if f.commitFails {
      s.Restore(snapshot);
      resp := if resp.Created? then resp.(trailingError := true) else ServerError;
    } else {
      CommitGroupValid(snapshot, req.grupo, req.investigadores[..linked]);
      assert linked == n ==> req.investigadores[..linked] == req.investigadores;
    }
  }

  /**
   * The flow as evidently intended, with the loop assigning the
   * function-level err: a failing link insert rolls back like the other
   * failures.
   */
  function CorrectedOutcome(db: Db, body: Option<CreateRequest>, f: TxFaults): (r: (Db, Response<Grupo>))
    ensures r.1.BadRequest? <==> body.None?
    ensures body.None? ==> r.0 == db
    ensures body.Some? ==> r.0 == db || r.0 == CommitGroup(db, body.value.grupo, body.value.investigadores)
    ensures r.1.Created? ==> body.Some? && r.1.body == body.value.grupo.(id := db.grupos.next)
    ensures r.1.ServerError? || r.1.NoResponse? ==> r.0 == db
  {
    if body.None? then (db, BadRequest)
    else if f.beginFails then (db, ServerError)
    else
      var req := body.value;
      if f.groupInsertFails || f.lastIdFails || FirstFailed(f.linkFails, |req.investigadores|) < |req.investigadores| then (db, NoResponse)
      else
        var g' := req.grupo.(id := db.grupos.next);
        if f.commitFails then (db, Created(g', true)) else (CommitGroup(db, req.grupo, req.investigadores), Created(g', false))
  }

  /** The corrected flow is all-or-nothing: the store gains exactly the group and all its links, or nothing. */
  lemma CorrectedAllOrNothing(db: Db, body: Option<CreateRequest>, f: TxFaults)
    requires DbValid(db)
    ensures var (db', resp) := CorrectedOutcome(db, body, f);
      && (db' == db || (body.Some? && db' == CommitGroup(db, body.value.grupo, body.value.investigadores)))
      && (db' != db <==> body.Some? && !f.beginFails && !f.groupInsertFails && !f.lastIdFails && !f.commitFails
                         && (forall i :: 0 <= i < |body.value.investigadores| ==> i !in f.linkFails))
      && (db' != db ==> CommittedExactly(db, db', body.value.grupo, body.value.investigadores)
                        && resp == Created(body.value.grupo.(id := db.grupos.next), false))
  {
    if body.Some? {
      var req := body.value;
      var n := |req.investigadores|;
      var k := FirstFailed(f.linkFails, n);
      CommitGroupExactly(db, req.grupo, req.investigadores);
      assert db.grupos.next !in db.grupos.rows;
      assert db.grupos.next in CommitGroup(db, req.grupo, req.investigadores).grupos.rows;
      if k < n {
        assert k in f.linkFails;
      }
    }
  }

  /** CreateGrupoWithDetailsHandler with the loop writing `_, err =` instead of declaring a new err. */
  method CreateGrupoWithDetailsCorrected(s: Store, body: Option<CreateRequest>, f: TxFaults) returns (resp: Response<Grupo>)
    requires s.Valid()
    modifies s
    ensures s.Valid()
    ensures (s.State(), resp) == CorrectedOutcome(old(s.State()), body, f)
  {
    if body.None? {
      return BadRequest;
    }
    var req := body.value;
    if f.beginFails {
      return ServerError;
    }
    var snapshot := s.State();
    var err := false;
    resp := NoResponse;
    label handler: {
      if f.groupInsertFails {
        err := true;
        break handler;
      }
      var grupoID := s.grupos.next;
      s.grupos := Insert(s.grupos, req.grupo.(id := grupoID));
      if f.lastIdFails {
        err := true;
        break handler;
      }
      var rels := req.investigadores;
      for i := 0 to |rels|
        invariant grupoID == snapshot.grupos.next
        invariant s.grupos == Insert(snapshot.grupos, req.grupo.(id := grupoID))
        invariant s.investigadores == snapshot.investigadores
        invariant s.detalles == InsertLinks(snapshot.detalles, grupoID, rels[..i])
        invariant forall j :: 0 <= j < i ==> j !in f.linkFails
        invariant !err
      {
        err := i in f.linkFails;
        if err {
          break handler;
        }
        assert rels[..i + 1][..i] == rels[..i];
        s.detalles := InsertLink(s.detalles, grupoID, rels[i]);
      }
      assert rels[..|rels|] == rels;
      var grupoToCreate := req.grupo.(id := grupoID);
      resp := Created(grupoToCreate, false);
    }
    if err {
      s.Restore(snapshot);
    } else if f.commitFails {
      s.Restore(snapshot);
      resp := resp.(trailingError := true);
    } else {
      CommitGroupValid(snapshot, req.grupo, req.investigadores);
    }
  }
}
