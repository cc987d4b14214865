/**
  The server side of one open transaction, as far as the describe probe depends on it:
  its data, its savepoints, whether it is aborted, and the statements prepared in the
  session it is pinned to (sections 3.4 and 25 of the PostgreSQL manual; PREPARE,
  SAVEPOINT, ROLLBACK TO SAVEPOINT and RELEASE SAVEPOINT in its reference part).
*/
module ServerTx {
  import opened Wrappers

  datatype Mark<D> = Mark(name: string, data: D)

  datatype Tx<D> = Tx(data: D, savepoints: seq<Mark<D>>, aborted: bool, prepared: set<string>)

  datatype Stmt =
    | Savepoint(name: string)
    | RollbackTo(name: string)
    | Release(name: string)
    | Prepare(name: string, sql: string)
    | Query(sql: string)

  /** What becomes of one call: it is served, and may leave any data behind; the server
      refuses it; it never arrives; or it is served and the reply is lost. */
  datatype Fate<D> = Served(data: D) | Refused | Unsent | Unheard(data: D)

  /** The latest savepoint of that name. */
  function Find<D>(marks: seq<Mark<D>>, name: string): Option<nat>
    ensures Find(marks, name).Some? ==> Find(marks, name).value < |marks|
  {
    if marks == [] then None
    else if marks[|marks| - 1].name == name then Some(|marks| - 1)
    else Find(marks[..|marks| - 1], name)
  }

  function Abort<D>(tx: Tx<D>): Tx<D> { tx.(aborted := true) }

  function Rewind<D>(tx: Tx<D>, name: string): (Tx<D>, bool) {
    match Find(tx.savepoints, name)
    case None => (Abort(tx), false)
    case Some(i) => (Tx(tx.savepoints[i].data, tx.savepoints[..i + 1], false, tx.prepared), true)
  }

  function Forget<D>(tx: Tx<D>, name: string): (Tx<D>, bool) {
    match Find(tx.savepoints, name)
    case None => (Abort(tx), false)
    case Some(i) => (tx.(savepoints := tx.savepoints[..i]), true)
  }

  /** How the server serves a statement when nothing else goes wrong: the transaction
      after it, and whether it succeeded. PREPARE is not undone by a rollback. */
  function Serve<D>(tx: Tx<D>, stmt: Stmt, data: D): (Tx<D>, bool) {
    if stmt.RollbackTo? then Rewind(tx, stmt.name)
    else if tx.aborted then (tx, false)
    else if stmt.Savepoint? then (tx.(savepoints := tx.savepoints + [Mark(stmt.name, tx.data)]), true)
    else if stmt.Release? then Forget(tx, stmt.name)
    else if stmt.Query? then (tx.(data := data), true)
    else if stmt.name in tx.prepared then (Abort(tx), false)
    else (tx.(prepared := tx.prepared + {stmt.name}), true)
  }

  /** One call: the transaction after it, and whether the caller hears of a success. */
  function Called<D>(tx: Tx<D>, stmt: Stmt, fate: Fate<D>): (Tx<D>, bool) {
    match fate
    case Served(data) => Serve(tx, stmt, data)
    case Refused => (Abort(tx), false)
    case Unsent => (tx, false)
    case Unheard(data) => (Serve(tx, stmt, data).0, false)
  }

  // ---------------------------------------------------------------- behind a savepoint

  predicate IsInner(stmt: Stmt) { stmt.Prepare? || stmt.Query? }

  /** Whatever else happened, the savepoints are the same and no prepared statement is
      gone. */
  predicate Kept<D(==)>(before: Tx<D>, after: Tx<D>) {
    before.savepoints == after.savepoints && before.prepared <= after.prepared
  }

  lemma InnerKeeps<D>(tx: Tx<D>, stmt: Stmt, fate: Fate<D>)
    requires IsInner(stmt)
    ensures Kept(tx, Called(tx, stmt, fate).0)
  {
  }

  lemma FindPushed<D>(marks: seq<Mark<D>>, mark: Mark<D>)
    ensures Find(marks + [mark], mark.name) == Some(|marks|)
  {
  }

  /** The caller's transaction is back where it was: the same data, the same savepoints,
      not aborted; only the prepared statements may have grown. */
  predicate Restored<D(==)>(before: Tx<D>, after: Tx<D>) {
    && after.data == before.data
    && after.savepoints == before.savepoints
    && after.aborted == before.aborted
    && before.prepared <= after.prepared
  }

  /** A savepoint that was set, anything at all that only prepares and queries, and a
      rollback and release that succeed: together they leave no trace. It does not
      matter that the caller may have a savepoint of the same name. */
  lemma CleanupRestores<D>(before: Tx<D>, name: string, inside: Tx<D>, set1: Fate<D>, rolled: Fate<D>,
      released: Fate<D>)
    requires Called(before, Savepoint(name), set1).1
    requires Kept(Called(before, Savepoint(name), set1).0, inside)
    requires Called(inside, RollbackTo(name), rolled).1
    requires Called(Called(inside, RollbackTo(name), rolled).0, Release(name), released).1
    ensures Restored(before, Called(Called(inside, RollbackTo(name), rolled).0, Release(name), released).0)
  {
    FindPushed(before.savepoints, Mark(name, before.data));
  }

  /** Even when the release is not heard of, the data and the aborted flag are back. */
  lemma RollbackRestoresData<D>(before: Tx<D>, name: string, inside: Tx<D>, set1: Fate<D>, rolled: Fate<D>)
    requires Called(before, Savepoint(name), set1).1
    requires Kept(Called(before, Savepoint(name), set1).0, inside)
    requires Called(inside, RollbackTo(name), rolled).1
    ensures var after := Called(inside, RollbackTo(name), rolled).0;
      && after.data == before.data && !after.aborted && !before.aborted
      && after.savepoints == before.savepoints + [Mark(name, before.data)]
      && before.prepared <= after.prepared
  {
    FindPushed(before.savepoints, Mark(name, before.data));
  }

  /** When the savepoint is not reported set, the probe gives up without cleaning up.
      That leaves the transaction as it was exactly if it was aborted already, or the
      request never arrived. */
  lemma FailedSavepoint<D>(before: Tx<D>, name: string, fate: Fate<D>)
    requires !Called(before, Savepoint(name), fate).1
    ensures Restored(before, Called(before, Savepoint(name), fate).0) <==> before.aborted || fate.Unsent?
  {
    if fate.Unheard? && !before.aborted {
      assert |Called(before, Savepoint(name), fate).0.savepoints| == |before.savepoints| + 1;
    }
  }
}
