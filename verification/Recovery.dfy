/**
  The session's failed flag beside the server's aborted state, over the statements of
  one open transaction (src/session.rs:255-283, src/handlers.rs:185-230,
  src/handlers.rs:381-406).

  COMMIT goes by the session's flag. That flag is set when a statement of the client is
  not reported to succeed; it is not set by the probe (src/probe.rs:171-202) nor by the
  look at a cursor (src/handlers.rs:293-315), and it is not cleared by a rollback to a
  savepoint. So the two can disagree both ways.
*/
module Recovery {
  import opened Wrappers
  import opened DataApi
  import opened ServerTx
  import opened SqlWords
  import opened Transactions

  /** A statement sent in the transaction. It decides whether the session is marked if it
      is the client's, run once, or the last of its three attempts (`Fallback.Decider`);
      a statement of the proxy's own decides nothing. */
  datatype Sent<D> = Sent(stmt: Stmt, fate: Fate<D>, decides: bool)

  /** The server's transaction after these statements. */
  function After<D>(tx: Tx<D>, sent: seq<Sent<D>>): Tx<D> {
    if sent == [] then tx
    else
      var n := |sent| - 1;
      Called(After(tx, sent[..n]), sent[n].stmt, sent[n].fate).0
  }

  /** Whether statement `i` was reported to succeed. */
  predicate Succeeded<D(==)>(tx: Tx<D>, sent: seq<Sent<D>>, i: nat)
    requires i < |sent|
  {
    Called(After(tx, sent[..i]), sent[i].stmt, sent[i].fate).1
  }

  /** What the server made of statement `i`, whatever came back of it. */
  predicate FailedThere<D(==)>(tx: Tx<D>, sent: seq<Sent<D>>, i: nat)
    requires i < |sent|
  {
    match sent[i].fate
    case Refused => true
    case Unsent => false
    case Served(data) => !Serve(After(tx, sent[..i]), sent[i].stmt, data).1
    case Unheard(data) => !Serve(After(tx, sent[..i]), sent[i].stmt, data).1
  }

  predicate RewoundThere<D(==)>(tx: Tx<D>, sent: seq<Sent<D>>, i: nat)
    requires i < |sent|
  {
    sent[i].stmt.RollbackTo? && !sent[i].fate.Unsent? && !FailedThere(tx, sent, i)
  }

  predicate RewoundAfter<D(==)>(tx: Tx<D>, sent: seq<Sent<D>>, i: nat) {
    exists j :: i < j < |sent| && RewoundThere(tx, sent, j)
  }

  /** Statement `i` failed at the server, and no rollback to a savepoint was served since. */
  predicate Broken<D(==)>(tx: Tx<D>, sent: seq<Sent<D>>, i: nat) {
    i < |sent| && FailedThere(tx, sent, i) && !RewoundAfter(tx, sent, i)
  }

  // ------------------------------------------------------------------ at the server

  lemma PrefixAgrees<D>(tx: Tx<D>, sent: seq<Sent<D>>, i: nat)
    requires i < |sent| - 1
    ensures FailedThere(tx, sent[..|sent| - 1], i) == FailedThere(tx, sent, i)
    ensures RewoundThere(tx, sent[..|sent| - 1], i) == RewoundThere(tx, sent, i)
  {
    assert sent[..|sent| - 1][..i] == sent[..i];
  }

  lemma LastStep<D>(tx: Tx<D>, sent: seq<Sent<D>>)
    requires sent != []
    ensures var n := |sent| - 1;
      After(tx, sent).aborted <==>
        FailedThere(tx, sent, n) || (After(tx, sent[..n]).aborted && !RewoundThere(tx, sent, n))
  {
  }

  lemma BrokenSnoc<D>(tx: Tx<D>, sent: seq<Sent<D>>, i: nat)
    requires i < |sent| - 1
    ensures Broken(tx, sent, i) <==> Broken(tx, sent[..|sent| - 1], i) && !RewoundThere(tx, sent, |sent| - 1)
  {
    hide FailedThere, RewoundThere;
    var start := sent[..|sent| - 1];
    PrefixAgrees(tx, sent, i);
    forall j | i < j < |start| ensures RewoundThere(tx, start, j) == RewoundThere(tx, sent, j) {
      PrefixAgrees(tx, sent, j);
    }
  }

  /** The server's transaction is aborted exactly if some statement failed there and no
      rollback to a savepoint was served since, whatever was lost on the way. */
  lemma {:induction false} AbortedExactly<D>(tx: Tx<D>, sent: seq<Sent<D>>)
    requires !tx.aborted
    ensures After(tx, sent).aborted <==> exists i: nat :: Broken(tx, sent, i)
    decreases |sent|
  {
    if sent != [] {
      var n := |sent| - 1;
      var start := sent[..n];
      AbortedExactly(tx, start);
      LastStep(tx, sent);
      forall i: nat | i < n ensures Broken(tx, sent, i) <==> Broken(tx, start, i) && !RewoundThere(tx, sent, n) {
        BrokenSnoc(tx, sent, i);
      }
      hide After, FailedThere, RewoundThere;
      if FailedThere(tx, sent, n) {
        assert Broken(tx, sent, n);
      } else if After(tx, start).aborted && !RewoundThere(tx, sent, n) {
        var i: nat :| Broken(tx, start, i);
        assert Broken(tx, sent, i);
      }
    }
  }

  /** What failed at the server was not reported to succeed. */
  lemma FailedIsUnreported<D>(tx: Tx<D>, sent: seq<Sent<D>>, i: nat)
    requires i < |sent| && FailedThere(tx, sent, i)
    ensures !Succeeded(tx, sent, i)
  {
  }

  // ------------------------------------------------------------------ in the session

  function TextOf(stmt: Stmt): string {
    match stmt
    case Savepoint(name) => "SAVEPOINT " + name
    case RollbackTo(name) => "ROLLBACK TO SAVEPOINT " + name
    case Release(name) => "RELEASE SAVEPOINT " + name
    case Prepare(name, sql) => "PREPARE " + name + " AS " + sql
    case Query(sql) => sql
  }

  /** The same statements as the session's operations. */
  function OpsOf<D(==)>(tx: Tx<D>, sent: seq<Sent<D>>): (ops: seq<Op>)
    ensures |ops| == |sent|
    ensures forall i :: 0 <= i < |sent| ==>
      ops[i] == Statement(TextOf(sent[i].stmt), [], sent[i].decides && !Succeeded(tx, sent, i))
  {
    seq(|sent|, i requires 0 <= i < |sent| =>
      Statement(TextOf(sent[i].stmt), [], sent[i].decides && !Succeeded(tx, sent, i)))
  }

  /** A statement that decides was not reported to succeed. */
  ghost predicate MarkedFailed<D>(tx: Tx<D>, sent: seq<Sent<D>>) {
    exists i :: 0 <= i < |sent| && sent[i].decides && !Succeeded(tx, sent, i)
  }

  ghost predicate AllRewound<D>(tx: Tx<D>, sent: seq<Sent<D>>) {
    forall i :: 0 <= i < |sent| && FailedThere(tx, sent, i) ==> RewoundAfter(tx, sent, i)
  }

  lemma {:induction false} StaysOpen(l: Ledger, ops: seq<Op>, oracle: Oracle)
    requires forall i :: 0 <= i < |ops| ==> ops[i].Statement?
    ensures Run(l, ops, oracle).slot == l.slot
    decreases |ops|
  {
    if ops != [] {
      StaysOpen(Step(l, ops[0], oracle), ops[1..], oracle);
    }
  }

  /** The ledger when these statements were sent in the transaction that BEGIN opened. */
  function OpenAfter<D(==)>(before: seq<Op>, tx: Tx<D>, sent: seq<Sent<D>>, oracle: Oracle): Ledger {
    Run(Step(Run(EMPTY, before, oracle), Control(Begin), oracle), OpsOf(tx, sent), oracle)
  }

  ghost predicate CommitSends<D>(before: seq<Op>, tx: Tx<D>, sent: seq<Sent<D>>, oracle: Oracle, call: Call) {
    var open := OpenAfter(before, tx, sent, oracle);
    Step(open, Control(Commit), oracle).log == open.log + [call]
  }

  lemma CommitGoesByMark<D>(before: seq<Op>, tx: Tx<D>, sent: seq<Sent<D>>, oracle: Oracle)
    requires var l := Run(EMPTY, before, oracle); l.slot.None? && oracle(|l.log|).Ok?
    ensures var id := |Run(EMPTY, before, oracle).log|;
      && (CommitSends(before, tx, sent, oracle, CommitTx(id)) <==> !MarkedFailed(tx, sent))
      && (CommitSends(before, tx, sent, oracle, RollbackTx(id)) <==> MarkedFailed(tx, sent))
  {
    hide Succeeded, Step, Run;
    var l := Run(EMPTY, before, oracle);
    var ops := OpsOf(tx, sent);
    BeginOpens(l, oracle);
    StaysOpen(Step(l, Control(Begin), oracle), ops, oracle);
    CommitExactly(before, ops, oracle);
    if i :| 0 <= i < |sent| && sent[i].decides && !Succeeded(tx, sent, i) {
      assert Marks(ops[i]);
    }
  }

  lemma BeginOpens(l: Ledger, oracle: Oracle)
    requires l.slot.None? && oracle(|l.log|).Ok?
    ensures Step(l, Control(Begin), oracle).slot == Some(|l.log|)
  {
  }

  // ---------------------------------------------------------- where the two disagree

  /** COMMIT sends a commit for a transaction the server aborted, and reports COMMIT for
      what PostgreSQL rolls back, exactly if a statement that decides nothing failed at
      the server, no rollback to a savepoint was served after it, and every statement that
      decides was reported to succeed. */
  lemma CommitsAborted<D>(before: seq<Op>, tx: Tx<D>, sent: seq<Sent<D>>, oracle: Oracle)
    requires var l := Run(EMPTY, before, oracle); l.slot.None? && oracle(|l.log|).Ok?
    requires !tx.aborted
    ensures var id := |Run(EMPTY, before, oracle).log|;
      After(tx, sent).aborted && CommitSends(before, tx, sent, oracle, CommitTx(id)) <==>
        && (exists i: nat :: Broken(tx, sent, i) && !sent[i].decides)
        && (forall i :: 0 <= i < |sent| && sent[i].decides ==> Succeeded(tx, sent, i))
  {
    hide Succeeded, After, FailedThere, RewoundAfter, CommitSends;
    AbortedByMark(tx, sent);
    CommitGoesByMark(before, tx, sent, oracle);
  }

  /** The server aborted and the session is unmarked. */
  lemma AbortedByMark<D>(tx: Tx<D>, sent: seq<Sent<D>>)
    requires !tx.aborted
    ensures After(tx, sent).aborted && !MarkedFailed(tx, sent) <==>
      && (exists i: nat :: Broken(tx, sent, i) && !sent[i].decides)
      && (forall i :: 0 <= i < |sent| && sent[i].decides ==> Succeeded(tx, sent, i))
  {
    hide Succeeded, After, FailedThere, RewoundAfter;
    AbortedExactly(tx, sent);
    if i: nat :| Broken(tx, sent, i) {
      FailedIsUnreported(tx, sent, i);
      assert sent[i].decides ==> MarkedFailed(tx, sent);
    }
  }

  /** COMMIT sends a rollback for a transaction that PostgreSQL would commit exactly if a
      statement that decides was not reported to succeed, and every statement that failed
      at the server was followed by a rollback to a savepoint that was served there. */
  lemma RollsBackLive<D>(before: seq<Op>, tx: Tx<D>, sent: seq<Sent<D>>, oracle: Oracle)
    requires var l := Run(EMPTY, before, oracle); l.slot.None? && oracle(|l.log|).Ok?
    requires !tx.aborted
    ensures var id := |Run(EMPTY, before, oracle).log|;
      !After(tx, sent).aborted && CommitSends(before, tx, sent, oracle, RollbackTx(id)) <==>
        MarkedFailed(tx, sent) && AllRewound(tx, sent)
  {
    hide Succeeded, After, FailedThere, RewoundAfter, CommitSends;
    AbortedExactly(tx, sent);
    CommitGoesByMark(before, tx, sent, oracle);
    NoneBroken(tx, sent);
  }

  lemma NoneBroken<D>(tx: Tx<D>, sent: seq<Sent<D>>)
    ensures AllRewound(tx, sent) <==> !exists i: nat :: Broken(tx, sent, i)
  {
    hide FailedThere, RewoundAfter;
    if i: nat :| Broken(tx, sent, i) {
      assert !AllRewound(tx, sent);
    }
    if !AllRewound(tx, sent) {
      var i :| 0 <= i < |sent| && FailedThere(tx, sent, i) && !RewoundAfter(tx, sent, i);
      assert Broken(tx, sent, i);
    }
  }

  // ------------------------------------------------------------------- three runs

  lemma FirstFate<D>(tx: Tx<D>, sent: seq<Sent<D>>)
    requires sent != []
    ensures sent[..0] == [] && After(tx, sent[..0]) == tx
  {
  }

  /** BEGIN, a statement of the proxy's own that the server refuses, such as the probe's
      SAVEPOINT or a FETCH from a cursor that is not there, COMMIT: a commit is sent for a
      transaction the server aborted. */
  lemma RefusedProbeExample<D>(tx: Tx<D>, stmt: Stmt, oracle: Oracle)
    requires !tx.aborted && oracle(0).Ok?
    ensures var sent := [Sent(stmt, Refused, false)];
      After(tx, sent).aborted && CommitSends([], tx, sent, oracle, CommitTx(0))
  {
    var sent: seq<Sent<D>> := [Sent(stmt, Refused, false)];
    FirstFate(tx, sent);
    assert Run(EMPTY, [], oracle) == EMPTY;
    assert Broken(tx, sent, 0);
    CommitsAborted([], tx, sent, oracle);
  }

  /** BEGIN, a write that the server makes but whose result the Data API will not return,
      COMMIT: nothing failed at the server, and a rollback is sent. */
  lemma UnreturnableWriteExample<D>(tx: Tx<D>, sql: string, data: D, oracle: Oracle)
    requires !tx.aborted && oracle(0).Ok?
    ensures var sent := [Sent(Query(sql), Unheard(data), true)];
      && After(tx, sent).data == data && !After(tx, sent).aborted
      && CommitSends([], tx, sent, oracle, RollbackTx(0))
  {
    var sent: seq<Sent<D>> := [Sent(Query(sql), Unheard(data), true)];
    FirstFate(tx, sent);
    assert Run(EMPTY, [], oracle) == EMPTY;
    assert !Succeeded(tx, sent, 0) && !FailedThere(tx, sent, 0);
    RollsBackLive([], tx, sent, oracle);
  }

  /** BEGIN, SAVEPOINT a, a statement that fails, ROLLBACK TO SAVEPOINT a, COMMIT: the
      server's transaction is as it was and could be committed, and a rollback is sent. */
  lemma RecoveredYetRolledBack<D>(tx: Tx<D>, sql: string, oracle: Oracle)
    requires !tx.aborted && oracle(0).Ok?
    ensures var sent := Recovered(tx, sql);
      && After(tx, sent).data == tx.data && !After(tx, sent).aborted
      && CommitSends([], tx, sent, oracle, RollbackTx(0))
  {
    var sent := Recovered(tx, sql);
    var one, two := sent[..1], sent[..2];
    assert one[..0] == [] && two[..1] == one && sent[..3] == sent && sent[..0] == [];
    FindPushed(tx.savepoints, Mark("a", tx.data));
    assert After(tx, one) == tx.(savepoints := tx.savepoints + [Mark("a", tx.data)]);
    assert After(tx, two) == Abort(After(tx, one));
    assert Run(EMPTY, [], oracle) == EMPTY;
    assert !Succeeded(tx, sent, 1);
    CommitGoesByMark([], tx, sent, oracle);
  }

  function Recovered<D>(tx: Tx<D>, sql: string): seq<Sent<D>> {
    [Sent(Savepoint("a"), Served(tx.data), true), Sent(Query(sql), Refused, true),
     Sent(RollbackTo("a"), Served(tx.data), true)]
  }
}
