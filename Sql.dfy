/**
 * What the repository functions see of database/sql: queries built from
 * fragments with `?` placeholders and bound arguments, the rows.Next/Scan
 * loop that turns a result set into a slice, and QueryRow(...).Scan for
 * single-row lookups. Driver failures are inputs.
 */
module Sql {
  import opened Wrappers
  import opened Models

  /** Number of `?` placeholders in a query text. */
  function Placeholders(s: string): nat
  {
    if s == [] then 0 else (if s[0] == '?' then 1 else 0) + Placeholders(s[1..])
  }

  lemma {:induction false} PlaceholdersAppend(a: string, b: string)
    ensures Placeholders(a + b) == Placeholders(a) + Placeholders(b)
  {
    if a == [] {
      assert a + b == b;
    } else {
      assert (a + b)[0] == a[0];
      assert (a + b)[1..] == a[1..] + b;
      PlaceholdersAppend(a[1..], b);
    }
  }

  lemma {:induction false} NoPlaceholders(s: string)
    requires '?' !in s
    ensures Placeholders(s) == 0
  {
    if s != [] {
      assert s[0] in s;
      assert forall c :: c in s[1..] ==> c in s;
      NoPlaceholders(s[1..]);
    }
  }

  /** A LIKE pattern matching any text that contains s. */
  function Contains(s: string): string
  {
    "%" + s + "%"
  }

  /** One conditional filter: the fragment appended to the WHERE clause and the values bound to its placeholders, in order. */
  datatype Clause = Clause(fragment: string, args: seq<string>)

  /** A clause binds exactly as many values as its fragment has placeholders. */
  predicate WellFormed(c: Clause)
  {
    Placeholders(c.fragment) == |c.args|
  }

  lemma AllWellFormedAppend(a: seq<Clause>, b: seq<Clause>)
    requires forall k :: 0 <= k < |a| ==> WellFormed(a[k])
    requires forall k :: 0 <= k < |b| ==> WellFormed(b[k])
    ensures forall k :: 0 <= k < |a + b| ==> WellFormed((a + b)[k])
  {
    forall k | 0 <= k < |a + b|
      ensures WellFormed((a + b)[k])
    {
      if k < |a| {
        assert (a + b)[k] == a[k];
      } else {
        assert (a + b)[k] == b[k - |a|];
      }
    }
  }

  /** The fragments of a clause list, concatenated in order. */
  function Fragments(cs: seq<Clause>): string
  {
    if cs == [] then "" else cs[0].fragment + Fragments(cs[1..])
  }

  /** The bound values of a clause list, concatenated in order. */
  function Arguments(cs: seq<Clause>): seq<string>
  {
    if cs == [] then [] else cs[0].args + Arguments(cs[1..])
  }

  lemma {:induction false} FragmentsAppend(a: seq<Clause>, b: seq<Clause>)
    ensures Fragments(a + b) == Fragments(a) + Fragments(b)
    ensures Arguments(a + b) == Arguments(a) + Arguments(b)
  {
    if a == [] {
      assert a + b == b;
    } else {
      assert (a + b)[0] == a[0];
      assert (a + b)[1..] == a[1..] + b;
      FragmentsAppend(a[1..], b);
    }
  }

  lemma {:induction false} FragmentsMatchArguments(cs: seq<Clause>)
    requires forall i :: 0 <= i < |cs| ==> WellFormed(cs[i])
    ensures Placeholders(Fragments(cs)) == |Arguments(cs)|
  {
    if cs != [] {
      assert WellFormed(cs[0]);
      FragmentsMatchArguments(cs[1..]);
      PlaceholdersAppend(cs[0].fragment, Fragments(cs[1..]));
    }
  }

  /** Appending well-formed clauses to a base query adds one placeholder per bound value. */
  lemma AppendedPlaceholdersMatchArguments(base: string, cs: seq<Clause>)
    requires forall i :: 0 <= i < |cs| ==> WellFormed(cs[i])
    ensures Placeholders(base + Fragments(cs)) == Placeholders(base) + |Arguments(cs)|
  {
    FragmentsMatchArguments(cs);
    PlaceholdersAppend(base, Fragments(cs));
  }

  /** A fragment with one `?` between two placeholder-free texts. */
  lemma OnePlaceholder(a: string, b: string)
    requires '?' !in a && '?' !in b
    ensures Placeholders(a + "?" + b) == 1
  {
    NoPlaceholders(a);
    NoPlaceholders(b);
    PlaceholdersAppend(a, "?");
    PlaceholdersAppend(a + "?", b);
  }

  /** A fragment with two `?` separated by placeholder-free texts. */
  lemma TwoPlaceholders(a: string, b: string, c: string)
    requires '?' !in a && '?' !in b && '?' !in c
    ensures Placeholders(a + "?" + b + "?" + c) == 2
  {
    OnePlaceholder(a, b);
    NoPlaceholders(c);
    PlaceholdersAppend(a + "?" + b, "?");
    PlaceholdersAppend(a + "?" + b + "?", c);
  }

  /**
   * The driver failures a listing query can meet: db.Query itself fails,
   * rows.Scan fails on the rows whose positions are in scanFails, or
   * rows.Err() reports an error once the iteration ends.
   */
  datatype ListFaults = ListFaults(queryFails: bool, scanFails: set<nat>, iterFails: bool)

  /** The listing of n rows meets none of the failures in f. */
  predicate ListSucceeds(f: ListFaults, n: nat)
  {
    !f.queryFails && !f.iterFails && forall i :: 0 <= i < n ==> i !in f.scanFails
  }

  /** The three fmt.Errorf prefixes a listing function wraps its errors in. */
  datatype ListContexts = ListContexts(query: string, scan: string, iter: string)

  /**
   * The error a listing of n rows reports: the prefix of the first step that
   * fails (the query, a scan, then rows.Err()), or none.
   */
  function ListError(f: ListFaults, n: nat, ctx: ListContexts): (err: Option<Error>)
    ensures err.None? <==> ListSucceeds(f, n)
    ensures err.Some? ==> err.value.context in {ctx.query, ctx.scan, ctx.iter}
  {
    if f.queryFails then Some(Error(ctx.query))
    else if exists i :: 0 <= i < n && i in f.scanFails then Some(Error(ctx.scan))
    else if f.iterFails then Some(Error(ctx.iter))
    else None
  }

  /**
   * db.Query, then the `for rows.Next() { rows.Scan(...); list = append(list, row) }`
   * loop, then rows.Err(). The slice starts as an empty, non-nil slice; every
   * error path returns nil and the wrapped error, never a partial list.
   */
  method QueryRows<R>(rows: seq<R>, f: ListFaults, ctx: ListContexts) returns (list: Option<seq<R>>, err: Option<Error>)
    ensures err.None? <==> ListSucceeds(f, |rows|)
    ensures err.None? ==> list == Some(rows)
    ensures err.Some? ==> list.None?
    ensures f.queryFails ==> err == Some(Error(ctx.query))
    ensures !f.queryFails && (exists i :: 0 <= i < |rows| && i in f.scanFails) ==> err == Some(Error(ctx.scan))
    ensures !f.queryFails && (forall i :: 0 <= i < |rows| ==> i !in f.scanFails) && f.iterFails ==> err == Some(Error(ctx.iter))
    ensures err == ListError(f, |rows|, ctx)
  {
    if f.queryFails {
      return None, Some(Error(ctx.query));
    }
    var acc: seq<R> := [];
    var i := 0;
    while i < |rows|
      invariant 0 <= i <= |rows|
      invariant acc == rows[..i]
      invariant forall j :: 0 <= j < i ==> j !in f.scanFails
    {
      if i in f.scanFails {
        return None, Some(Error(ctx.scan));
      }
      acc := acc + [rows[i]];
      i := i + 1;
    }
    if f.iterFails {
      return None, Some(Error(ctx.iter));
    }
    assert acc == rows;
    return Some(acc), None;
  }

  /** What QueryRow(...).Scan(...) yields: the row, sql.ErrNoRows, or some other error. */
  datatype Scan<R> = Scanned(row: R) | ErrNoRows | ScanFailed

  /**
   * The result mapping shared by the get-by-id functions: sql.ErrNoRows
   * becomes (nil, nil), any other error (nil, wrapped error), a row (row, nil).
   */
  function FromScan<R>(s: Scan<R>, context: string): (r: (Option<R>, Option<Error>))
    ensures !(r.0.Some? && r.1.Some?)
    ensures r.0.Some? <==> s.Scanned?
    ensures r.1.Some? <==> s.ScanFailed?
    ensures s.Scanned? ==> r.0 == Some(s.row)
    ensures s.ScanFailed? ==> r.1 == Some(Error(context))
  {
    match s
    case Scanned(row) => (Some(row), None)
    case ErrNoRows => (None, None)
    case ScanFailed => (None, Some(Error(context)))
  }
}
