/**
 * The pieces shared by the two create-group-with-details flows
 * (controllers/grupo.go and handlers/grupo_handler.go): the request body,
 * the failures the transaction can meet, and what a commit of the group
 * and its links does to the store.
 */
module Transaction {
  import opened Wrappers
  import opened Models
  import opened Database

  /** One entry of the request's `investigadores` list (InvestigatorRelationshipRequest). */
  datatype Relationship = Relationship(idInvestigador: int, tipoRelacion: string)

  /** CreateGrupoWithDetailsRequest: the group and the investigators to link to it. */
  datatype CreateRequest = CreateRequest(grupo: Grupo, investigadores: seq<Relationship>)

  /**
   * The failures the flow can meet: db.Begin, the group insert, reading the
   * generated id (only the handlers variant reads it separately), the link
   * inserts at the positions in linkFails, and tx.Commit.
   */
  datatype TxFaults = TxFaults(beginFails: bool, groupInsertFails: bool, lastIdFails: bool, linkFails: set<nat>, commitFails: bool)

  /** The link row inserted for one request entry. */
  function Link(gid: int, id: int, rel: Relationship): Detalle
  {
    Detalle(id, gid, rel.idInvestigador, rel.tipoRelacion)
  }

  /** INSERT INTO the link table for one entry, under the next generated id. */
  function InsertLink(t: Table<Detalle>, gid: int, rel: Relationship): Table<Detalle>
  {
    Insert(t, Link(gid, t.next, rel))
  }

  /** The link inserts of the loop, one per entry, in list order. */
  function InsertLinks(t: Table<Detalle>, gid: int, rels: seq<Relationship>): Table<Detalle>
  {
    if rels == [] then t else InsertLink(InsertLinks(t, gid, rels[..|rels| - 1]), gid, rels[|rels| - 1])
  }

  /**
   * The loop adds exactly one row per entry: entry i becomes the row with id
   * t.next + i, linked to gid and carrying that entry's investigator and
   * relation; the rows already there are untouched.
   */
  lemma {:induction false} InsertLinksShape(t: Table<Detalle>, gid: int, rels: seq<Relationship>)
    ensures var t' := InsertLinks(t, gid, rels);
      && t'.next == t.next + |rels|
      && t'.rows.Keys == t.rows.Keys + IdRange(t.next, |rels|)
      && (forall k :: k in t.rows && !(t.next <= k < t.next + |rels|) ==> t'.rows[k] == t.rows[k])
      && (forall k :: t.next <= k < t.next + |rels| ==> k in t'.rows && t'.rows[k] == Link(gid, k, rels[k - t.next]))
  {
    if rels != [] {
      var n := |rels| - 1;
      var init := rels[..n];
      InsertLinksShape(t, gid, init);
      var m := InsertLinks(t, gid, init);
      assert InsertLinks(t, gid, rels) == Insert(m, Link(gid, t.next + n, rels[n]));
      assert forall j :: 0 <= j < n ==> init[j] == rels[j];
      assert IdRange(t.next, |rels|) == IdRange(t.next, n) + {t.next + n};
    }
  }

  /** The ids lo, lo + 1, ..., lo + n - 1. */
  function IdRange(lo: int, n: nat): set<int>
  {
    if n == 0 then {} else IdRange(lo, n - 1) + {lo + n - 1}
  }

  lemma {:induction false} IdRangeMembers(lo: int, n: nat, k: int)
    ensures k in IdRange(lo, n) <==> lo <= k < lo + n
  {
    if n > 0 {
      IdRangeMembers(lo, n - 1, k);
    }
  }

  /** Link inserts keep the table's keys generated and every link carrying its own key, and add exactly |rels| rows. */
  lemma {:induction false} InsertLinksKeyed(t: Table<Detalle>, gid: int, rels: seq<Relationship>)
    requires Keyed(t) && forall k :: k in t.rows ==> t.rows[k].id == k
    ensures var t' := InsertLinks(t, gid, rels);
      && Keyed(t') && (forall k :: k in t'.rows ==> t'.rows[k].id == k)
      && |t'.rows| == |t.rows| + |rels|
  {
    if rels != [] {
      InsertLinksKeyed(t, gid, rels[..|rels| - 1]);
      var m := InsertLinks(t, gid, rels[..|rels| - 1]);
      assert m.next !in m.rows;
    }
  }

  /** The committed effect of the flow: the group under the next group id and one link per entry pointing at it. */
  function CommitGroup(db: Db, g: Grupo, rels: seq<Relationship>): Db
  {
    var gid := db.grupos.next;
    db.(grupos := Insert(db.grupos, g.(id := gid)), detalles := InsertLinks(db.detalles, gid, rels))
  }

  /** The store after CommitGroup holds the new group plus exactly one link per entry, in list order, and nothing else changes. */
  predicate CommittedExactly(db: Db, db': Db, g: Grupo, rels: seq<Relationship>)
  {
    var gid := db.grupos.next;
    && db'.investigadores == db.investigadores
    && db'.grupos.next == gid + 1
    && db'.grupos.rows == db.grupos.rows[gid := g.(id := gid)]
    && db'.detalles.next == db.detalles.next + |rels|
    && db'.detalles.rows.Keys == db.detalles.rows.Keys + IdRange(db.detalles.next, |rels|)
    && (forall k :: k in db.detalles.rows && !(db.detalles.next <= k < db.detalles.next + |rels|) ==> db'.detalles.rows[k] == db.detalles.rows[k])
    && (forall k :: db.detalles.next <= k < db.detalles.next + |rels| ==>
          && k in db'.detalles.rows
          && db'.detalles.rows[k].idGrupo == gid
          && db'.detalles.rows[k].idInvestigador == rels[k - db.detalles.next].idInvestigador
          && db'.detalles.rows[k].tipoRelacion == rels[k - db.detalles.next].tipoRelacion)
  }

  /** After an exact commit the link table is keyed by the old keys and the |rels| new consecutive ids, and by nothing else. */
  lemma CommittedLinkKeys(db: Db, db': Db, g: Grupo, rels: seq<Relationship>)
    requires CommittedExactly(db, db', g, rels)
    ensures forall k :: k in db'.detalles.rows <==> k in db.detalles.rows || db.detalles.next <= k < db.detalles.next + |rels|
  {
    forall k
      ensures k in db'.detalles.rows <==> k in db.detalles.rows || db.detalles.next <= k < db.detalles.next + |rels|
    {
      IdRangeMembers(db.detalles.next, |rels|, k);
    }
  }

  lemma CommitGroupExactly(db: Db, g: Grupo, rels: seq<Relationship>)
    ensures CommittedExactly(db, CommitGroup(db, g, rels), g, rels)
  {
    InsertLinksShape(db.detalles, db.grupos.next, rels);
  }

  /** A commit keeps the store's keys generated and every row carrying its own key. */
  lemma CommitGroupValid(db: Db, g: Grupo, rels: seq<Relationship>)
    requires DbValid(db)
    ensures DbValid(CommitGroup(db, g, rels))
    ensures |CommitGroup(db, g, rels).grupos.rows| == |db.grupos.rows| + 1
    ensures |CommitGroup(db, g, rels).detalles.rows| == |db.detalles.rows| + |rels|
  {
    InsertLinksKeyed(db.detalles, db.grupos.next, rels);
    assert db.grupos.next !in db.grupos.rows;
  }

  /** The first position below n whose insert fails, or n when none does. */
  function FirstFailed(fails: set<nat>, n: nat): (k: nat)
    ensures k <= n
    ensures k < n ==> k in fails
    ensures forall j :: 0 <= j < k ==> j !in fails
  {
    FirstFailedFrom(fails, 0, n)
  }

  function FirstFailedFrom(fails: set<nat>, i: nat, n: nat): (k: nat)
    requires i <= n
    requires forall j :: 0 <= j < i ==> j !in fails
    ensures i <= k <= n
    ensures k < n ==> k in fails
    ensures forall j :: 0 <= j < k ==> j !in fails
    decreases n - i
  {
    if i == n || i in fails then i else FirstFailedFrom(fails, i + 1, n)
  }
}
