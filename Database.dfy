/**
 * The relational store behind the repositories, reduced to three tables
 * (Grupo, Investigador, Detalle_GrupoInvestigador). Each table maps its
 * primary key to the row and keeps the next AUTO_INCREMENT value.
 */
module Database {
  import opened Wrappers
  import opened Models
  import opened Sql

  datatype Table<R> = Table(rows: map<int, R>, next: int)

  function EmptyTable<R>(): Table<R>
  {
    Table(map[], 1)
  }

  /** Every key is a positive id below the next one to be generated. */
  ghost predicate Keyed<R>(t: Table<R>)
  {
    t.next >= 1 && forall k :: k in t.rows ==> 1 <= k < t.next
  }

  /** INSERT: the row is stored under the generated id (the caller has put that id in the row). */
  function Insert<R>(t: Table<R>, r: R): Table<R>
  {
    Table(t.rows[t.next := r], t.next + 1)
  }

  /** UPDATE ... WHERE id = ?: zero affected rows when the id is absent. */
  function Replace<R>(t: Table<R>, id: int, r: R): Table<R>
  {
    if id in t.rows then Table(t.rows[id := r], t.next) else t
  }

  /** DELETE ... WHERE id = ?: zero affected rows when the id is absent. */
  function Remove<R>(t: Table<R>, id: int): Table<R>
  {
    Table(t.rows - {id}, t.next)
  }

  /** The rows with keys in [lo, hi), in ascending key order. */
  function RowsFrom<R>(m: map<int, R>, lo: int, hi: int): seq<R>
    decreases hi - lo
  {
    if lo >= hi then [] else (if lo in m then [m[lo]] else []) + RowsFrom(m, lo + 1, hi)
  }

  /** The result set of a SELECT over the whole table, in ascending id order. */
  function Rows<R>(t: Table<R>): seq<R>
  {
    RowsFrom(t.rows, 1, t.next)
  }

  lemma {:induction false} RowsFromMembers<R>(m: map<int, R>, lo: int, hi: int, r: R)
    ensures r in RowsFrom(m, lo, hi) <==> exists k :: lo <= k < hi && k in m && m[k] == r
    decreases hi - lo
  {
    if lo < hi {
      RowsFromMembers(m, lo + 1, hi, r);
      assert r in RowsFrom(m, lo, hi) <==> (lo in m && m[lo] == r) || r in RowsFrom(m, lo + 1, hi);
    }
  }

  /** A full-table listing holds exactly the stored rows. */
  lemma RowsComplete<R>(t: Table<R>, r: R)
    requires Keyed(t)
    ensures r in Rows(t) <==> exists k :: k in t.rows && t.rows[k] == r
  {
    RowsFromMembers(t.rows, 1, t.next, r);
  }

  /** QueryRow("... WHERE id = ?", id).Scan(...) against one table. */
  function ScanById<R>(t: Table<R>, id: int, fails: bool): Scan<R>
  {
    if fails then ScanFailed else if id in t.rows then Scanned(t.rows[id]) else ErrNoRows
  }

  /** A snapshot of the whole store, as a value. */
  datatype Db = Db(grupos: Table<Grupo>, investigadores: Table<Investigador>, detalles: Table<Detalle>)

  /** Keys are generated ids and every row carries its own key as its id. */
  ghost predicate DbValid(db: Db)
  {
    && Keyed(db.grupos) && (forall k :: k in db.grupos.rows ==> db.grupos.rows[k].id == k)
    && Keyed(db.investigadores) && (forall k :: k in db.investigadores.rows ==> db.investigadores.rows[k].id == k)
    && Keyed(db.detalles) && (forall k :: k in db.detalles.rows ==> db.detalles.rows[k].id == k)
  }

  /** The database handle: the three tables, updated in place by the repository functions. */
  class Store {
    var grupos: Table<Grupo>
    var investigadores: Table<Investigador>
    var detalles: Table<Detalle>

    function State(): Db
      reads this
    {
      Db(grupos, investigadores, detalles)
    }

    ghost predicate Valid()
      reads this
    {
      DbValid(State())
    }

    constructor ()
      ensures Valid()
      ensures State() == Db(EmptyTable(), EmptyTable(), EmptyTable())
    {
      grupos := EmptyTable();
      investigadores := EmptyTable();
      detalles := EmptyTable();
    }

    /** Puts every table back as it was in the snapshot (a transaction rollback). */
    method Restore(snapshot: Db)
      modifies this
      ensures State() == snapshot
    {
      grupos := snapshot.grupos;
      investigadores := snapshot.investigadores;
      detalles := snapshot.detalles;
    }
  }
}
