/**
  What COMMIT comes down to over a whole connection: any sequence of portal commands,
  simple statements and other operations since BEGIN, with the marking rule of
  src/handlers.rs:185-230 and the decision of src/handlers.rs:381-406.
*/
module CommitRuns {
  import opened Wrappers
  import opened DataApi
  import opened SqlWords
  import opened Transactions
  import opened Fallback
  import opened Portals
  import Recovery
  import ServerTx

  /** Running the statement ends in an error from the Data API. */
  ghost predicate RunFails(l: Ledger, raw: string, stmt: Prepared, w: World) {
    && TransactionControl(raw).None? && w.hazard(stmt.sql).None?
    && Attempted(stmt.sql, w.oracle, |l.log|).reply.Err?
  }

  /** The command runs a statement, and that ends in an error from the Data API. An answer
      that cannot be encoded, a hazard and a value that cannot be converted do not count. */
  ghost predicate Fails(s: State, c: Command, w: World) {
    match c
    case DescribePortal(_, raw, stmt) => stmt.Ok? && RunFails(s.ledger, raw, stmt.value, w)
    case ExecutePortal(p, raw, stmt) =>
      p !in s.held && p !in s.parked && stmt.Ok? && RunFails(s.ledger, raw, stmt.value, w)
    case SimpleStatement(text) => RunFails(s.ledger, text, SimplePrepared(text), w)
    case Other(op) => Marks(op)
  }

  ghost predicate SomeFails(s: State, cs: seq<Command>, w: World) {
    exists i :: 0 <= i < |cs| && Fails(RunAll(s, cs[..i], w), cs[i], w)
  }

  /** A run fails exactly if it makes calls, and the one that decides, the first or the
      third, is answered with an error. */
  lemma FailsByCall(l: Ledger, raw: string, stmt: Prepared, w: World)
    ensures RunFails(l, raw, stmt, w) <==>
      && TransactionControl(raw).None? && RunCalls(l, raw, stmt, w) != []
      && w.oracle(|l.log| + Decider(|RunCalls(l, raw, stmt, w)|)).Err?
  {
    hide TransactionControl, Attempted;
    AttemptDecides(stmt.sql, w.oracle, |l.log|);
  }

  /** A transaction that has left the slot does not come back to it. */
  lemma RanGone(l: Ledger, raw: string, stmt: Prepared, w: World, id: TxId)
    requires id < |l.log|
    ensures var after := Ran(l, raw, stmt, w).0;
      && |l.log| <= |after.log|
      && (l.slot != Some(id) ==> after.slot != Some(id))
      && (l.slot == Some(id) == after.slot ==> (after.failed <==> l.failed || RunFails(l, raw, stmt, w)))
  {
    hide TransactionControl, Attempted;
  }

  lemma NextGone(s: State, c: Command, w: World, id: TxId)
    requires id < |s.ledger.log|
    ensures var next := Next(s, c, w).0;
      && |s.ledger.log| <= |next.ledger.log|
      && (s.ledger.slot != Some(id) ==> next.ledger.slot != Some(id))
      && (s.ledger.slot == Some(id) == next.ledger.slot ==>
            (next.ledger.failed <==> s.ledger.failed || Fails(s, c, w)))
  {
    hide TransactionControl, Ran, RunFails;
    match c {
      case DescribePortal(_, raw, stmt) =>
        if stmt.Ok? {
          RanGone(s.ledger, raw, stmt.value, w, id);
          ControlNeverFails(s.ledger, raw, stmt.value, w);
        }
      case ExecutePortal(_, raw, stmt) =>
        if stmt.Ok? { RanGone(s.ledger, raw, stmt.value, w, id); }
      case SimpleStatement(text) => RanGone(s.ledger, text, SimplePrepared(text), w, id);
      case Other(_) =>
    }
  }

  lemma ControlNeverFails(l: Ledger, raw: string, stmt: Prepared, w: World)
    ensures RunFails(l, raw, stmt, w) ==> TransactionControl(raw).None?
  {
  }

  lemma {:induction false} GoneForGood(s: State, cs: seq<Command>, w: World, id: TxId)
    requires id < |s.ledger.log| && s.ledger.slot != Some(id)
    ensures RunAll(s, cs, w).ledger.slot != Some(id)
    decreases |cs|
  {
    if cs != [] {
      hide Next;
      NextGone(s, cs[0], w, id);
      GoneForGood(Next(s, cs[0], w).0, cs[1..], w, id);
    }
  }

  lemma SomeFailsFirst(s: State, cs: seq<Command>, w: World)
    requires cs != []
    ensures SomeFails(s, cs, w) <==> Fails(s, cs[0], w) || SomeFails(Next(s, cs[0], w).0, cs[1..], w)
  {
    hide Next, Fails;
    var next, rest := Next(s, cs[0], w).0, cs[1..];
    assert cs[..0] == [] && RunAll(s, cs[..0], w) == s;
    forall i | 0 < i < |cs| ensures RunAll(s, cs[..i], w) == RunAll(next, rest[..i - 1], w) {
      assert cs[..i][0] == cs[0] && cs[..i][1..] == rest[..i - 1];
    }
    if i :| 0 <= i < |rest| && Fails(RunAll(next, rest[..i], w), rest[i], w) {
      assert Fails(RunAll(s, cs[..i + 1], w), cs[i + 1], w);
    }
    if i :| 0 <= i < |cs| && Fails(RunAll(s, cs[..i], w), cs[i], w) {
      if i > 0 {
        assert Fails(RunAll(next, rest[..i - 1], w), rest[i - 1], w);
      }
    }
  }

  lemma {:induction false} FailedOverRun(s: State, cs: seq<Command>, w: World, id: TxId)
    requires id < |s.ledger.log| && s.ledger.slot == Some(id) && RunAll(s, cs, w).ledger.slot == Some(id)
    ensures RunAll(s, cs, w).ledger.failed <==> s.ledger.failed || SomeFails(s, cs, w)
    decreases |cs|
  {
    if cs != [] {
      hide Next, Fails, SomeFails;
      var next := Next(s, cs[0], w).0;
      NextGone(s, cs[0], w, id);
      if next.ledger.slot != Some(id) {
        GoneForGood(next, cs[1..], w, id);
      }
      FailedOverRun(next, cs[1..], w, id);
      SomeFailsFirst(s, cs, w);
    }
  }

  /** A connection runs BEGIN, then anything at all that leaves the transaction in its
      slot, then COMMIT: the commit is sent, and COMMIT reported, if and only if no
      statement run since BEGIN ended in an error from the Data API; else a rollback is
      sent and reported. */
  lemma CommitOverRuns(s: State, begin: string, cs: seq<Command>, commit: string, stmt: Prepared, w: World)
    requires TransactionControl(begin) == Some(Begin) && TransactionControl(commit) == Some(Commit)
    requires s.ledger.slot.None? && w.oracle(|s.ledger.log|).Ok?
    requires RunAll(Next(s, SimpleStatement(begin), w).0, cs, w).ledger.slot == Some(|s.ledger.log|)
    ensures
      var id := |s.ledger.log|;
      var begun := Next(s, SimpleStatement(begin), w).0;
      var open := RunAll(begun, cs, w).ledger;
      var (closed, answer) := Ran(open, commit, stmt, w);
      && closed.slot == None
      && closed.log == open.log + [if SomeFails(begun, cs, w) then RollbackTx(id) else CommitTx(id)]
      && (w.oracle(|open.log|).Ok? ==>
            answer == ControlAnswer(if SomeFails(begun, cs, w) then Rollback else Commit))
  {
    hide TransactionControl, SomeFails;
    var begun := Next(s, SimpleStatement(begin), w).0;
    assert begun.ledger == Begun(s.ledger, w.oracle);
    FailedOverRun(begun, cs, w, |s.ledger.log|);
  }

  // ------------------------------------------------------------- beside the server

  /** From `from` on, the log holds statements in transaction `id` and nothing else. */
  ghost predicate OnlyIn(log: seq<Call>, from: nat, id: TxId) {
    forall k :: from <= k < |log| ==> log[k].Execute? && log[k].tx == Some(id)
  }

  lemma RanInside(l: Ledger, raw: string, stmt: Prepared, w: World, id: TxId)
    requires id < |l.log| && l.slot == Some(id) && Ran(l, raw, stmt, w).0.slot == Some(id)
    ensures l.log <= Ran(l, raw, stmt, w).0.log && OnlyIn(Ran(l, raw, stmt, w).0.log, |l.log|, id)
  {
    hide TransactionControl, Attempted;
  }

  lemma NextInside(s: State, c: Command, w: World, id: TxId)
    requires id < |s.ledger.log| && s.ledger.slot == Some(id) && Next(s, c, w).0.ledger.slot == Some(id)
    ensures var log := Next(s, c, w).0.ledger.log; s.ledger.log <= log && OnlyIn(log, |s.ledger.log|, id)
  {
    hide TransactionControl, Ran;
    match c {
      case DescribePortal(_, raw, stmt) =>
        if stmt.Ok? && TransactionControl(raw).None? { RanInside(s.ledger, raw, stmt.value, w, id); }
      case ExecutePortal(p, raw, stmt) =>
        if stmt.Ok? && p !in s.held && p !in s.parked { RanInside(s.ledger, raw, stmt.value, w, id); }
      case SimpleStatement(text) => RanInside(s.ledger, text, SimplePrepared(text), w, id);
      case Other(_) =>
    }
  }

  /** While a transaction is in the slot, every call is a statement in it. */
  lemma {:induction false} RunInside(s: State, cs: seq<Command>, w: World, id: TxId)
    requires id < |s.ledger.log| && s.ledger.slot == Some(id) && RunAll(s, cs, w).ledger.slot == Some(id)
    ensures var log := RunAll(s, cs, w).ledger.log; s.ledger.log <= log && OnlyIn(log, |s.ledger.log|, id)
    decreases |cs|
  {
    if cs != [] {
      hide Next;
      var next := Next(s, cs[0], w).0;
      NextGone(s, cs[0], w, id);
      if next.ledger.slot != Some(id) {
        GoneForGood(next, cs[1..], w, id);
      }
      NextInside(s, cs[0], w, id);
      RunInside(next, cs[1..], w, id);
    }
  }

  // ------------------------------------------------------- which calls decide the mark

  /** The call of a run that decides whether the session is marked, if there is one. */
  ghost function RunDecides(l: Ledger, raw: string, stmt: Prepared, w: World): set<nat> {
    if TransactionControl(raw).Some? || RunCalls(l, raw, stmt, w) == [] then {}
    else {|l.log| + Decider(|RunCalls(l, raw, stmt, w)|)}
  }

  ghost function Decides(s: State, c: Command, w: World): set<nat> {
    match c
    case DescribePortal(_, raw, stmt) => if stmt.Ok? then RunDecides(s.ledger, raw, stmt.value, w) else {}
    case ExecutePortal(p, raw, stmt) =>
      if p !in s.held && p !in s.parked && stmt.Ok? then RunDecides(s.ledger, raw, stmt.value, w) else {}
    case SimpleStatement(text) => RunDecides(s.ledger, text, SimplePrepared(text), w)
    case Other(op) => if Marks(op) then {|s.ledger.log|} else {}
  }

  /** The places in the log of all calls that decide. */
  ghost function DecidingIn(s: State, cs: seq<Command>, w: World): set<nat>
    decreases |cs|
  {
    if cs == [] then {} else Decides(s, cs[0], w) + DecidingIn(Next(s, cs[0], w).0, cs[1..], w)
  }

  /** Other operations mark the session only over an error of their own. */
  ghost predicate MarkOnError(s: State, cs: seq<Command>, w: World)
    decreases |cs|
  {
    cs != [] ==>
      && (cs[0].Other? && Marks(cs[0].op) ==> w.oracle(|s.ledger.log|).Err?)
      && MarkOnError(Next(s, cs[0], w).0, cs[1..], w)
  }

  ghost predicate SomeErr(places: set<nat>, oracle: Oracle) { exists k :: k in places && oracle(k).Err? }

  lemma RunByPlace(l: Ledger, raw: string, stmt: Prepared, w: World)
    ensures RunFails(l, raw, stmt, w) <==> SomeErr(RunDecides(l, raw, stmt, w), w.oracle)
    ensures forall k :: k in RunDecides(l, raw, stmt, w) ==> |l.log| <= k < |Ran(l, raw, stmt, w).0.log|
  {
    FailsByCall(l, raw, stmt, w);
    RanMakes(l, raw, stmt, w);
    AttemptDecides(stmt.sql, w.oracle, |l.log|);
    hide TransactionControl, Attempted, Ran, RunFails, Decider;
    if TransactionControl(raw).None? && RunCalls(l, raw, stmt, w) != [] {
      assert |l.log| + Decider(|RunCalls(l, raw, stmt, w)|) in RunDecides(l, raw, stmt, w);
    }
  }

  lemma CommandByPlace(s: State, c: Command, w: World)
    requires c.Other? && Marks(c.op) ==> w.oracle(|s.ledger.log|).Err?
    ensures Fails(s, c, w) <==> SomeErr(Decides(s, c, w), w.oracle)
    ensures forall k :: k in Decides(s, c, w) ==> |s.ledger.log| <= k < |Next(s, c, w).0.ledger.log|
  {
    hide TransactionControl, Ran, RunFails, RunDecides;
    match c {
      case DescribePortal(_, raw, stmt) =>
        if stmt.Ok? {
          RunByPlace(s.ledger, raw, stmt.value, w);
          ControlDecidesNothing(s.ledger, raw, stmt.value, w);
        }
      case ExecutePortal(p, raw, stmt) =>
        if stmt.Ok? { RunByPlace(s.ledger, raw, stmt.value, w); }
      case SimpleStatement(text) => RunByPlace(s.ledger, text, SimplePrepared(text), w);
      case Other(op) =>
        if Marks(op) {
          assert |s.ledger.log| in Decides(s, c, w);
        }
    }
  }

  lemma ControlDecidesNothing(l: Ledger, raw: string, stmt: Prepared, w: World)
    ensures TransactionControl(raw).Some? ==> RunDecides(l, raw, stmt, w) == {}
  {
  }

  lemma SomeErrUnion(a: set<nat>, b: set<nat>, oracle: Oracle)
    ensures SomeErr(a + b, oracle) <==> SomeErr(a, oracle) || SomeErr(b, oracle)
  {
    if k :| k in a && oracle(k).Err? {
      assert k in a + b;
    }
    if k :| k in b && oracle(k).Err? {
      assert k in a + b;
    }
  }

  /** Some run failed exactly if some call that decides was answered with an error. */
  lemma {:induction false} FailsByPlace(s: State, cs: seq<Command>, w: World)
    requires MarkOnError(s, cs, w)
    ensures SomeFails(s, cs, w) <==> SomeErr(DecidingIn(s, cs, w), w.oracle)
    ensures |s.ledger.log| <= |RunAll(s, cs, w).ledger.log|
    ensures forall k :: k in DecidingIn(s, cs, w) ==> |s.ledger.log| <= k < |RunAll(s, cs, w).ledger.log|
    decreases |cs|
  {
    if cs != [] {
      hide Next, Fails, SomeFails, Decides, SomeErr;
      var next := Next(s, cs[0], w).0;
      CommandByPlace(s, cs[0], w);
      NextGrows(s, cs[0], w);
      FailsByPlace(next, cs[1..], w);
      SomeFailsFirst(s, cs, w);
      SomeErrUnion(Decides(s, cs[0], w), DecidingIn(next, cs[1..], w), w.oracle);
    }
  }

  // ------------------------------------------------------------ the log at the server

  /** The calls from `from` on as statements at the server: what `read` makes of their
      text, what became of each, and whether it decides. */
  ghost function AtServer<D>(log: seq<Call>, from: nat, deciding: set<nat>, read: string -> ServerTx.Stmt,
      fate: nat -> ServerTx.Fate<D>): (sent: seq<Recovery.Sent<D>>)
    requires from <= |log|
    ensures |sent| == |log| - from
    ensures forall i :: 0 <= i < |sent| ==> (sent[i].decides <==> from + i in deciding)
  {
    seq(|log| - from, i requires 0 <= i < |log| - from =>
      Recovery.Sent(if log[from + i].Execute? then read(log[from + i].sql) else ServerTx.Query(""), fate(from + i),
          from + i in deciding))
  }

  /** The replies the session got are those of the calls at the server. */
  ghost predicate SameReplies<D>(tx: ServerTx.Tx<D>, sent: seq<Recovery.Sent<D>>, from: nat, oracle: Oracle) {
    forall i :: 0 <= i < |sent| ==> (oracle(from + i).Ok? <==> Recovery.Succeeded(tx, sent, i))
  }

  lemma MarkedByPlace<D>(tx: ServerTx.Tx<D>, sent: seq<Recovery.Sent<D>>, from: nat, deciding: set<nat>,
      oracle: Oracle)
    requires SameReplies(tx, sent, from, oracle)
    requires forall i :: 0 <= i < |sent| ==> (sent[i].decides <==> from + i in deciding)
    requires forall k :: k in deciding ==> from <= k < from + |sent|
    ensures Recovery.MarkedFailed(tx, sent) <==> SomeErr(deciding, oracle)
  {
    hide Recovery.Succeeded;
    if k :| k in deciding && oracle(k).Err? {
      assert sent[k - from].decides && from + (k - from) == k;
    }
    if i :| 0 <= i < |sent| && sent[i].decides && !Recovery.Succeeded(tx, sent, i) {
      assert from + i in deciding;
    }
  }

  /** The same run beside the server's transaction `tx`, in which every call since BEGIN
      was made and from which every reply came. COMMIT sends a commit for a transaction the
      server aborted exactly if a call that decides for no run failed at the server, with
      no rollback to a savepoint served since, and every call that decides was answered
      with success. It sends a rollback for one that is not aborted exactly if a call that
      decides was answered with an error, and a rollback to a savepoint was served after
      every call that failed at the server. */
  lemma CommitBesideServer<D>(s: State, begin: string, cs: seq<Command>, commit: string, stmt: Prepared, w: World,
      tx: ServerTx.Tx<D>, read: string -> ServerTx.Stmt, fate: nat -> ServerTx.Fate<D>)
    requires TransactionControl(begin) == Some(Begin) && TransactionControl(commit) == Some(Commit)
    requires s.ledger.slot.None? && w.oracle(|s.ledger.log|).Ok?
    requires RunAll(Next(s, SimpleStatement(begin), w).0, cs, w).ledger.slot == Some(|s.ledger.log|)
    requires MarkOnError(Next(s, SimpleStatement(begin), w).0, cs, w) && !tx.aborted
    ensures
      var id := |s.ledger.log|;
      var begun := Next(s, SimpleStatement(begin), w).0;
      var open := RunAll(begun, cs, w).ledger;
      var closed := Ran(open, commit, stmt, w).0;
      && id < |open.log| && OnlyIn(open.log, id + 1, id)
      && var sent := AtServer(open.log, id + 1, DecidingIn(begun, cs, w), read, fate);
         var aborted := Recovery.After(tx, sent).aborted;
         SameReplies(tx, sent, id + 1, w.oracle) ==>
           && (aborted && closed.log == open.log + [CommitTx(id)] <==>
                 && (exists i: nat :: Recovery.Broken(tx, sent, i) && !sent[i].decides)
                 && (forall i :: 0 <= i < |sent| && sent[i].decides ==> Recovery.Succeeded(tx, sent, i)))
           && (!aborted && closed.log == open.log + [RollbackTx(id)] <==>
                 Recovery.MarkedFailed(tx, sent) && Recovery.AllRewound(tx, sent))
  {
    hide TransactionControl, SomeFails, Next, Ran, RunAll, AtServer, SameReplies, SomeErr, DecidingIn, MarkOnError,
      OnlyIn, Recovery.After, Recovery.AllRewound, Recovery.MarkedFailed, Recovery.Broken, Recovery.Succeeded;
    var id := |s.ledger.log|;
    var begun := Next(s, SimpleStatement(begin), w).0;
    BeginOpens(s, begin, w);
    RunInside(begun, cs, w, id);
    CommitOverRuns(s, begin, cs, commit, stmt, w);
    var open := RunAll(begun, cs, w).ledger;
    OneOrTheOther(open.log, id);
    FailsByPlace(begun, cs, w);
    var deciding := DecidingIn(begun, cs, w);
    var sent := AtServer(open.log, id + 1, deciding, read, fate);
    if SameReplies(tx, sent, id + 1, w.oracle) {
      BesideServer(tx, sent, id + 1, deciding, w.oracle);
    }
  }

  lemma BeginOpens(s: State, begin: string, w: World)
    requires TransactionControl(begin) == Some(Begin) && s.ledger.slot.None? && w.oracle(|s.ledger.log|).Ok?
    ensures var l := Next(s, SimpleStatement(begin), w).0.ledger;
      |l.log| == |s.ledger.log| + 1 && l.slot == Some(|s.ledger.log|)
  {
    hide TransactionControl;
  }

  lemma BesideServer<D>(tx: ServerTx.Tx<D>, sent: seq<Recovery.Sent<D>>, from: nat, deciding: set<nat>,
      oracle: Oracle)
    requires SameReplies(tx, sent, from, oracle) && !tx.aborted
    requires forall i :: 0 <= i < |sent| ==> (sent[i].decides <==> from + i in deciding)
    requires forall k :: k in deciding ==> from <= k < from + |sent|
    ensures Recovery.After(tx, sent).aborted && !SomeErr(deciding, oracle) <==>
      && (exists i: nat :: Recovery.Broken(tx, sent, i) && !sent[i].decides)
      && (forall i :: 0 <= i < |sent| && sent[i].decides ==> Recovery.Succeeded(tx, sent, i))
    ensures !Recovery.After(tx, sent).aborted && SomeErr(deciding, oracle) <==>
      Recovery.MarkedFailed(tx, sent) && Recovery.AllRewound(tx, sent)
  {
    MarkedByPlace(tx, sent, from, deciding, oracle);
    hide SameReplies, SomeErr, Recovery.After, Recovery.MarkedFailed, Recovery.AllRewound, Recovery.FailedThere,
      Recovery.Succeeded;
    Recovery.AbortedByMark(tx, sent);
    Recovery.AbortedExactly(tx, sent);
    Recovery.NoneBroken(tx, sent);
  }

  lemma OneOrTheOther(log: seq<Call>, id: TxId)
    ensures log + [CommitTx(id)] != log + [RollbackTx(id)]
  {
    assert (log + [CommitTx(id)])[|log|] != (log + [RollbackTx(id)])[|log|];
  }
}
