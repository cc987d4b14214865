/**
  The transaction slot of a session: src/session.rs:207-316, src/session.rs:388-410
  and the transaction control of src/handlers.rs:381-406.
*/
module Transactions {
  import opened Wrappers
  import opened DataApi
  import opened SqlWords

  /** The calls sent so far, the open transaction and whether it has failed. */
  datatype Ledger = Ledger(log: seq<Call>, slot: Option<TxId>, failed: bool)

  const EMPTY := Ledger([], None, false)

  /** What can happen to a session between two messages from its client. */
  datatype Op =
    | Control(control: TxControl)
    /** A statement sent in the session's transaction; a failure may mark it. */
    | Statement(sql: string, params: seq<Param>, marks: bool)
    /** A probe outside any transaction: its own transaction and calls in it. */
    | OwnProbe(inner: seq<string>)
    | Disconnect(inRuntime: bool)

  function Opened(l: Ledger, oracle: Oracle, id: TxId): bool {
    id < |l.log| && l.log[id] == BeginTx && oracle(id).Ok?
  }

  function Begun(l: Ledger, oracle: Oracle): Ledger {
    if l.slot.Some? then l
    else if oracle(|l.log|).Ok? then Ledger(l.log + [BeginTx], Some(|l.log|), false)
    else l.(log := l.log + [BeginTx])
  }

  function RolledBack(l: Ledger): Ledger {
    Ledger(if l.slot.Some? then l.log + [RollbackTx(l.slot.value)] else l.log, None, false)
  }

  function Committed(l: Ledger): Ledger {
    Ledger(if l.slot.Some? then l.log + [CommitTx(l.slot.value)] else l.log, None, false)
  }

  function Marked(l: Ledger): Ledger { l.(failed := l.failed || l.slot.Some?) }

  function Controlled(l: Ledger, control: TxControl, oracle: Oracle): Ledger {
    match control
    case Begin => Begun(l, oracle)
    case Commit => if l.failed then RolledBack(l) else Committed(l)
    case Rollback => RolledBack(l)
  }

  /** What the client is told: the tag, which is ROLLBACK for a COMMIT that could not
      be kept, or the error of the one call made. */
  function ControlResult(l: Ledger, control: TxControl, oracle: Oracle): Result<TxControl, ErrorInfo> {
    var called := if control == Begin then l.slot.None? else l.slot.Some?;
    match if called then Failing(oracle(|l.log|)) else None
    case Some(e) => Err(e)
    case None => Ok(if control == Commit && l.failed then Rollback else control)
  }

  /** The calls that send these texts, each with the same parameters, in transaction `tx`. */
  function Sends(sent: seq<string>, params: seq<Param>, tx: Option<TxId>): (r: seq<Call>)
    ensures |r| == |sent| && forall i :: 0 <= i < |r| ==> r[i] == Execute(sent[i], params, tx)
  {
    seq(|sent|, i requires 0 <= i < |sent| => Execute(sent[i], params, tx))
  }

  /** The calls transaction control makes: one at most. */
  function ControlCalls(l: Ledger, control: TxControl): seq<Call> {
    match control
    case Begin => if l.slot.None? then [BeginTx] else []
    case Commit =>
      if l.slot.None? then [] else if l.failed then [RollbackTx(l.slot.value)] else [CommitTx(l.slot.value)]
    case Rollback => if l.slot.None? then [] else [RollbackTx(l.slot.value)]
  }

  lemma ControlMakes(l: Ledger, control: TxControl, oracle: Oracle)
    ensures Controlled(l, control, oracle).log == l.log + ControlCalls(l, control)
  {
  }

  function Step(l: Ledger, op: Op, oracle: Oracle): Ledger {
    match op
    case Control(control) => Controlled(l, control, oracle)
    case Statement(sql, params, marks) =>
      var sent := l.(log := l.log + [Execute(sql, params, l.slot)]);
      if marks then Marked(sent) else sent
    case OwnProbe(inner) =>
      if l.slot.Some? then l
      else if oracle(|l.log|).Err? then l.(log := l.log + [BeginTx])
      else l.(log := l.log + [BeginTx] + Sends(inner, [], Some(|l.log|)) + [RollbackTx(|l.log|)])
    case Disconnect(inRuntime) =>
      if inRuntime && l.slot.Some? then RolledBack(l) else l.(slot := None)
  }

  function Run(l: Ledger, ops: seq<Op>, oracle: Oracle): Ledger
    decreases |ops|
  {
    if ops == [] then l else Run(Step(l, ops[0], oracle), ops[1..], oracle)
  }

  // ------------------------------------------------------------------ the invariant

  /** The slot holds exactly the one transaction that was opened and not yet ended;
      every other one opened was asked to end once; nothing else ever was. */
  ghost predicate Balanced(l: Ledger, oracle: Oracle) {
    && (forall id: TxId :: Ends(l.log, id) ==
          if Opened(l, oracle, id) && l.slot != Some(id) then 1 else 0)
    && (l.slot.Some? ==> Opened(l, oracle, l.slot.value))
    && (l.failed ==> l.slot.Some?)
  }

  /** A step that sends a call which opens and ends nothing. */
  lemma BalancedExecute(l: Ledger, sql: string, params: seq<Param>, oracle: Oracle)
    requires Balanced(l, oracle)
    ensures Balanced(l.(log := l.log + [Execute(sql, params, l.slot)]), oracle)
  {
    var after := l.(log := l.log + [Execute(sql, params, l.slot)]);
    forall id: TxId ensures Ends(after.log, id) == Ends(l.log, id)
        && Opened(after, oracle, id) == Opened(l, oracle, id) {
      assert after.log[..|l.log|] == l.log;
    }
  }

  lemma BalancedBegin(l: Ledger, oracle: Oracle)
    requires Balanced(l, oracle)
    ensures Balanced(Begun(l, oracle), oracle)
  {
    var after := Begun(l, oracle);
    if l.slot.None? {
      forall id: TxId ensures Ends(after.log, id) == Ends(l.log, id)
        && Opened(after, oracle, id) == (Opened(l, oracle, id) || (id == |l.log| && oracle(id).Ok?))
      {
        assert after.log[..|l.log|] == l.log;
      }
    }
  }

  lemma BalancedEnd(l: Ledger, call: Call, oracle: Oracle)
    requires Balanced(l, oracle) && l.slot.Some?
    requires call in {CommitTx(l.slot.value), RollbackTx(l.slot.value)}
    ensures Balanced(Ledger(l.log + [call], None, false), oracle)
  {
    var after := Ledger(l.log + [call], None, false);
    forall id: TxId
      ensures Ends(after.log, id) == Ends(l.log, id) + if l.slot == Some(id) then 1 else 0
      ensures Opened(after, oracle, id) == Opened(l, oracle, id)
    {
      assert after.log[..|l.log|] == l.log;
    }
  }

  lemma {:induction false} InnerEndsNothing(inner: seq<Call>, id: TxId)
    requires forall i :: 0 <= i < |inner| ==> inner[i].Execute?
    ensures Ends(inner, id) == 0
  {
    if inner != [] {
      InnerEndsNothing(inner[..|inner| - 1], id);
    }
  }

  lemma BalancedProbe(l: Ledger, inner: seq<string>, oracle: Oracle)
    requires Balanced(l, oracle) && l.slot.None? && oracle(|l.log|).Ok?
    ensures Balanced(Step(l, OwnProbe(inner), oracle), oracle)
  {
    var tx := |l.log|;
    var after := Step(l, OwnProbe(inner), oracle);
    forall id: TxId
      ensures Ends(after.log, id) == Ends(l.log, id) + if id == tx then 1 else 0
      ensures Opened(after, oracle, id) == (Opened(l, oracle, id) || id == tx)
    {
      hide Ends;
      ProbeEnds(l.log, Sends(inner, [], Some(tx)), tx, id);
    }
    hide Ends, Step;
  }

  lemma ProbeEnds(log: seq<Call>, calls: seq<Call>, tx: TxId, id: TxId)
    requires forall i :: 0 <= i < |calls| ==> calls[i].Execute?
    ensures Ends(log + [BeginTx] + calls + [RollbackTx(tx)], id) == Ends(log, id) + if id == tx then 1 else 0
  {
    hide Ends;
    EndsSum(log, [BeginTx], id);
    EndsSum(log + [BeginTx], calls, id);
    EndsSum(log + [BeginTx] + calls, [RollbackTx(tx)], id);
    InnerEndsNothing(calls, id);
    OneCall(BeginTx, id);
    OneCall(RollbackTx(tx), id);
  }

  lemma OneCall(call: Call, id: TxId)
    ensures Ends([call], id) == if call in {CommitTx(id), RollbackTx(id)} then 1 else 0
  {
    assert [call][..0] == [];
  }

  /** Every operation keeps the books, whatever the server replies, short of losing
      the connection outside a runtime. */
  lemma StepBalanced(l: Ledger, op: Op, oracle: Oracle)
    requires Balanced(l, oracle)
    requires op.Disconnect? && !op.inRuntime ==> l.slot.None?
    ensures Balanced(Step(l, op, oracle), oracle)
  {
    match op {
      case Control(Begin) => BalancedBegin(l, oracle);
      case Control(Commit) =>
        if l.slot.Some? {
          BalancedEnd(l, if l.failed then RollbackTx(l.slot.value) else CommitTx(l.slot.value), oracle);
        }
      case Control(Rollback) =>
        if l.slot.Some? {
          BalancedEnd(l, RollbackTx(l.slot.value), oracle);
        }
      case Statement(sql, params, _) => BalancedExecute(l, sql, params, oracle);
      case OwnProbe(inner) =>
        if l.slot.None? {
          if oracle(|l.log|).Ok? {
            BalancedProbe(l, inner, oracle);
          } else {
            BalancedBegin(l, oracle);
          }
        }
      case Disconnect(inRuntime) =>
        if inRuntime && l.slot.Some? {
          BalancedEnd(l, RollbackTx(l.slot.value), oracle);
        }
    }
  }

  lemma EmptyBalanced(oracle: Oracle)
    ensures Balanced(EMPTY, oracle)
  {
  }

  lemma {:induction false} RunBalanced(l: Ledger, ops: seq<Op>, oracle: Oracle)
    requires Balanced(l, oracle)
    requires forall i :: 0 <= i < |ops| && ops[i].Disconnect? ==> ops[i].inRuntime
    ensures Balanced(Run(l, ops, oracle), oracle)
    decreases |ops|
  {
    if ops != [] {
      StepBalanced(l, ops[0], oracle);
      RunBalanced(Step(l, ops[0], oracle), ops[1..], oracle);
    }
  }

  // ------------------------------------------------------------------- whole runs

  /** Over every run of a new session: each transaction opened is asked to end at
      most once, and exactly once unless it is the one still in the slot; nothing
      else is asked to end; and the session is failed only in a transaction. */
  lemma EveryRunBalances(ops: seq<Op>, oracle: Oracle, id: TxId)
    requires forall i :: 0 <= i < |ops| && ops[i].Disconnect? ==> ops[i].inRuntime
    ensures var l := Run(EMPTY, ops, oracle);
      && Ends(l.log, id) == (if Opened(l, oracle, id) && l.slot != Some(id) then 1 else 0)
      && (l.failed ==> l.slot.Some?)
  {
    EmptyBalanced(oracle);
    RunBalanced(EMPTY, ops, oracle);
  }

  /** Once the client has gone, inside a runtime, every transaction was ended once. */
  lemma DisconnectEndsAll(ops: seq<Op>, oracle: Oracle, id: TxId)
    requires forall i :: 0 <= i < |ops| && ops[i].Disconnect? ==> ops[i].inRuntime
    ensures var l := Step(Run(EMPTY, ops, oracle), Disconnect(true), oracle);
      Ends(l.log, id) == if Opened(l, oracle, id) then 1 else 0
  {
    EmptyBalanced(oracle);
    RunBalanced(EMPTY, ops, oracle);
    StepBalanced(Run(EMPTY, ops, oracle), Disconnect(true), oracle);
  }

  /** Outside a runtime every transaction was asked to end exactly if none was in the
      slot; the one that was is not asked, and left to expire. */
  lemma OutsideRuntimeLeavesOpen(ops: seq<Op>, oracle: Oracle)
    requires forall i :: 0 <= i < |ops| && ops[i].Disconnect? ==> ops[i].inRuntime
    ensures var l := Run(EMPTY, ops, oracle);
      var after := Step(l, Disconnect(false), oracle);
      && (l.slot.None? <==> forall id: TxId :: Ends(after.log, id) == if Opened(after, oracle, id) then 1 else 0)
      && (l.slot.Some? ==> Opened(after, oracle, l.slot.value) && Ends(after.log, l.slot.value) == 0)
  {
    EmptyBalanced(oracle);
    RunBalanced(EMPTY, ops, oracle);
    var l := Run(EMPTY, ops, oracle);
    if l.slot.Some? {
      assert Ends(Step(l, Disconnect(false), oracle).log, l.slot.value) == 0;
    }
  }

  // -------------------------------------------------- a failed transaction is doomed

  /** `id` is past saving: it is in the slot and failed, or no longer in the slot, and
      no commit was sent for it. */
  ghost predicate Doomed(l: Ledger, id: TxId) {
    && id < |l.log|
    && CommitTx(id) !in l.log
    && (l.slot == Some(id) ==> l.failed)
  }

  lemma StepDoomed(l: Ledger, op: Op, oracle: Oracle, id: TxId)
    requires Doomed(l, id)
    ensures Doomed(Step(l, op, oracle), id)
  {
  }

  /** Once marked failed, a transaction is never sent a commit, in any later run. */
  lemma {:induction false} FailedNeverCommits(l: Ledger, ops: seq<Op>, oracle: Oracle, id: TxId)
    requires Balanced(l, oracle) || Doomed(l, id)
    requires Doomed(l, id) || (l.slot == Some(id) && l.failed)
    ensures CommitTx(id) !in Run(l, ops, oracle).log
    decreases |ops|
  {
    if CommitTx(id) in l.log {
      CommitCounts(l.log, id);
    }
    if ops != [] {
      StepDoomed(l, ops[0], oracle, id);
      FailedNeverCommits(Step(l, ops[0], oracle), ops[1..], oracle, id);
    }
  }

  lemma {:induction false} CommitCounts(log: seq<Call>, id: TxId)
    requires CommitTx(id) in log
    ensures Ends(log, id) > 0
  {
    var n := |log| - 1;
    if log[n] != CommitTx(id) {
      assert log == log[..n] + [log[n]];
      CommitCounts(log[..n], id);
    }
  }

  // ------------------------------------------------------- what COMMIT comes down to

  /** A transaction that has left the slot does not come back to it. */
  lemma {:induction false} GoneStaysGone(l: Ledger, ops: seq<Op>, oracle: Oracle, id: TxId)
    requires id < |l.log| && l.slot != Some(id)
    ensures Run(l, ops, oracle).slot != Some(id)
    decreases |ops|
  {
    if ops != [] {
      GoneStaysGone(Step(l, ops[0], oracle), ops[1..], oracle, id);
    }
  }

  predicate Marks(op: Op) { op.Statement? && op.marks }

  /** While a transaction stays in the slot, only a statement can mark it. */
  lemma {:induction false} FailedSince(l: Ledger, ops: seq<Op>, oracle: Oracle, id: TxId)
    requires id < |l.log| && l.slot == Some(id) && Run(l, ops, oracle).slot == Some(id)
    ensures Run(l, ops, oracle).failed <==> l.failed || exists i :: 0 <= i < |ops| && Marks(ops[i])
    decreases |ops|
  {
    if ops != [] {
      var next := Step(l, ops[0], oracle);
      if next.slot != Some(id) {
        GoneStaysGone(next, ops[1..], oracle, id);
      }
      FailedSince(next, ops[1..], oracle, id);
      assert next.failed <==> l.failed || Marks(ops[0]);
      assert forall i :: 1 <= i < |ops| ==> ops[i] == ops[1..][i - 1];
    }
  }

  /** The transaction opened by a BEGIN after `before`, still in the slot after `since`:
      COMMIT sends one request for it, and that is a commit if, and only if, no statement
      since the BEGIN marked the session failed. */
  lemma CommitExactly(before: seq<Op>, since: seq<Op>, oracle: Oracle)
    requires var l := Run(EMPTY, before, oracle); l.slot.None? && oracle(|l.log|).Ok?
    requires var l := Run(EMPTY, before, oracle);
      Run(Step(l, Control(Begin), oracle), since, oracle).slot == Some(|l.log|)
    ensures var l := Run(EMPTY, before, oracle);
      var open := Run(Step(l, Control(Begin), oracle), since, oracle);
      var closed := Step(open, Control(Commit), oracle);
      && closed.slot == None
      && (closed.log == open.log + [CommitTx(|l.log|)] <==> forall i :: 0 <= i < |since| ==> !Marks(since[i]))
      && (closed.log == open.log + [RollbackTx(|l.log|)] <==> exists i :: 0 <= i < |since| && Marks(since[i]))
  {
    var l := Run(EMPTY, before, oracle);
    var begun := Step(l, Control(Begin), oracle);
    FailedSince(begun, since, oracle, |l.log|);
    var open := Run(begun, since, oracle);
    assert (open.log + [CommitTx(|l.log|)])[|open.log|] != (open.log + [RollbackTx(|l.log|)])[|open.log|];
  }

  // --------------------------------------------------- what ends a transaction, and how

  lemma {:induction false} RunSnoc(l: Ledger, ops: seq<Op>, op: Op, oracle: Oracle)
    ensures Run(l, ops + [op], oracle) == Step(Run(l, ops, oracle), op, oracle)
    decreases |ops|
  {
    hide Step;
    if ops == [] {
      assert [] + [op] == [op] && [op][1..] == [];
      assert Run(Step(l, op, oracle), [], oracle) == Step(l, op, oracle);
    } else {
      assert (ops + [op])[0] == ops[0] && (ops + [op])[1..] == ops[1..] + [op];
      RunSnoc(Step(l, ops[0], oracle), ops[1..], op, oracle);
    }
  }

  /** The operation commits `id`: the client's COMMIT, for the open transaction, unfailed. */
  predicate Commits(l: Ledger, op: Op, id: TxId) {
    op == Control(Commit) && l.slot == Some(id) && !l.failed
  }

  /** The operation rolls `id` back: the client's ROLLBACK, its COMMIT of a failed
      transaction, or its going away; or it is a probe's own transaction. */
  predicate RollsBack(l: Ledger, op: Op, id: TxId, oracle: Oracle) {
    || (l.slot == Some(id) &&
          (op == Control(Rollback) || op == Disconnect(true) || (op == Control(Commit) && l.failed)))
    || (op.OwnProbe? && l.slot == None && id == |l.log| && oracle(id).Ok?)
  }

  lemma StepEnds(l: Ledger, op: Op, oracle: Oracle, id: TxId)
    ensures CommitTx(id) in Step(l, op, oracle).log <==> CommitTx(id) in l.log || Commits(l, op, id)
    ensures RollbackTx(id) in Step(l, op, oracle).log <==> RollbackTx(id) in l.log || RollsBack(l, op, id, oracle)
  {
  }

  /** Over every run: a transaction is sent a commit if and only if the client's COMMIT came
      while it was open and not failed; and a rollback if and only if one of the causes
      above did. */
  lemma {:induction false} EndsHaveCauses(ops: seq<Op>, oracle: Oracle, id: TxId)
    ensures CommitTx(id) in Run(EMPTY, ops, oracle).log <==>
      exists i :: 0 <= i < |ops| && Commits(Run(EMPTY, ops[..i], oracle), ops[i], id)
    ensures RollbackTx(id) in Run(EMPTY, ops, oracle).log <==>
      exists i :: 0 <= i < |ops| && RollsBack(Run(EMPTY, ops[..i], oracle), ops[i], id, oracle)
    decreases |ops|
  {
    if ops != [] {
      hide Run, Step, Commits, RollsBack;
      var n := |ops| - 1;
      var start := ops[..n];
      assert ops == start + [ops[n]];
      EndsHaveCauses(start, oracle, id);
      RunSnoc(EMPTY, start, ops[n], oracle);
      StepEnds(Run(EMPTY, start, oracle), ops[n], oracle, id);
      forall i | 0 <= i < n ensures ops[..i] == start[..i] && ops[i] == start[i] {
      }
      if i :| 0 <= i < n && Commits(Run(EMPTY, start[..i], oracle), start[i], id) {
        assert Commits(Run(EMPTY, ops[..i], oracle), ops[i], id);
      }
      if i :| 0 <= i < n && RollsBack(Run(EMPTY, start[..i], oracle), start[i], id, oracle) {
        assert RollsBack(Run(EMPTY, ops[..i], oracle), ops[i], id, oracle);
      }
    } else {
      assert Run(EMPTY, ops, oracle) == EMPTY;
    }
  }

  /** A client that goes away has its open transaction rolled back, if there is a runtime
      to do it in; and nothing else is sent. */
  lemma DisconnectRollsBack(ops: seq<Op>, inRuntime: bool, oracle: Oracle)
    ensures var l, gone := Run(EMPTY, ops, oracle), Run(EMPTY, ops + [Disconnect(inRuntime)], oracle);
      && gone.slot == None
      && gone.log == l.log + (if inRuntime && l.slot.Some? then [RollbackTx(l.slot.value)] else [])
  {
    RunSnoc(EMPTY, ops, Disconnect(inRuntime), oracle);
  }

  // ------------------------------------------------------------------ the session

  /** The part of a session that owns its transaction. */
  class Session {
    const api: DataApi
    var transaction: Option<TxId>
    var failed: bool

    ghost function View(): Ledger
      reads this, api
    {
      Ledger(api.log, transaction, failed)
    }

    constructor (api: DataApi)
      ensures this.api == api && transaction == None && !failed
    {
      this.api := api;
      transaction, failed := None, false;
    }

    method MarkFailed()
      modifies this
      ensures View() == Marked(old(View()))
    {
      if transaction.Some? {
        failed := true;
      }
    }

    method BeginTransaction() returns (r: Option<ErrorInfo>)
      modifies this, api
      ensures View() == Begun(old(View()), api.oracle)
      ensures r == if old(transaction).Some? then None else Failing(api.oracle(|old(api.log)|))
    {
      if transaction.Some? {
        return None;
      }
      var begun := api.BeginTransaction();
      match begun {
        case Err(e) =>
          return Some(e);
        case Ok(id) =>
          transaction := Some(id);
          failed := false;
          return None;
      }
    }

    method CommitTransaction() returns (r: Option<ErrorInfo>)
      modifies this, api
      ensures View() == Committed(old(View()))
      ensures r == if old(transaction).None? then None else Failing(api.oracle(|old(api.log)|))
    {
      var taken := transaction;
      transaction := None;
      failed := false;
      match taken {
        case Some(id) => r := api.CommitTransaction(id);
        case None => r := None;
      }
    }

    method RollbackTransaction() returns (r: Option<ErrorInfo>)
      modifies this, api
      ensures View() == RolledBack(old(View()))
      ensures r == if old(transaction).None? then None else Failing(api.oracle(|old(api.log)|))
    {
      var taken := transaction;
      transaction := None;
      failed := false;
      match taken {
        case Some(id) => r := api.RollbackTransaction(id);
        case None => r := None;
      }
    }

    /** The source's `run_transaction_control`: the tag reported, or the error. */
    method RunTransactionControl(control: TxControl) returns (r: Result<TxControl, ErrorInfo>)
      modifies this, api
      ensures View() == Step(old(View()), Control(control), api.oracle)
      ensures r == ControlResult(old(View()), control, api.oracle)
      ensures api.log == old(api.log) + ControlCalls(old(View()), control)
      ensures r ==
        if api.log != old(api.log) && api.oracle(|old(api.log)|).Err? then Err(api.oracle(|old(api.log)|).error)
        else Ok(if control == Commit && old(failed) then Rollback else control)
    {
      var failure;
      var tag := control;
      match control {
        case Begin =>
          failure := BeginTransaction();
        case Commit =>
          if failed {
            failure := RollbackTransaction();
            tag := Rollback;
          } else {
            failure := CommitTransaction();
          }
        case Rollback =>
          failure := RollbackTransaction();
      }
      match failure {
        case Some(e) => r := Err(e);
        case None => r := Ok(tag);
      }
    }

    /** `Drop`: roll an unfinished transaction back, if there is a runtime to do it in. */
    method Drop(inRuntime: bool)
      modifies this, api
      ensures View().log == Step(old(View()), Disconnect(inRuntime), api.oracle).log
      ensures api.log == old(api.log) +
        if inRuntime && old(transaction).Some? then [RollbackTx(old(transaction).value)] else []
      ensures transaction == None
    {
      var taken := transaction;
      transaction := None;
      if taken.Some? && inRuntime {
        var ignored := api.RollbackTransaction(taken.value);
      }
    }
  }
}
