/**
  The extended protocol's Describe and Execute of a portal, src/handlers.rs:139-183,
  src/handlers.rs:590-677 and src/handlers.rs:716-742.

  Describe runs a portal's statement early and keeps the result; Execute must then
  hand that result out instead of running the statement again. Of pgwire only this
  is assumed, as src/handlers.rs:8-15 does: a portal that was started is never given
  to `do_query`, it replays the rows it was started with.
*/
module Portals {
  import opened Wrappers
  import opened DataApi
  import opened SqlWords
  import opened Transactions
  import opened Fallback
  import opened SqlRewrite
  import opened SqlBinding
  import Seqs
  import Shapes

  /** Each Bind makes a new one, whatever name the client gave it. */
  type PortalId = nat

  datatype Answer =
    | RowsAnswer(out: Outcome)
    | CountAnswer(out: Outcome)
    | ControlAnswer(tag: TxControl)
    | NoData
    | Failed(error: ErrorInfo)

  /** What the model leaves open: which texts are refused as hazards, whether rows can
      be encoded, and every reply of the Data API. */
  datatype World = World(
    hazard: string -> Option<ErrorInfo>,
    encode: Outcome -> Option<ErrorInfo>,
    oracle: Oracle)

  // ----------------------------------------------------------- running a statement

  function ControlReply(l: Ledger, control: TxControl, oracle: Oracle): Answer {
    match ControlResult(l, control, oracle)
    case Err(e) => Failed(e)
    case Ok(tag) => ControlAnswer(tag)
  }

  function AnswerOf(reply: Reply, encode: Outcome -> Option<ErrorInfo>): Answer {
    match reply
    case Err(e) => Failed(e)
    case Ok(Affected(n)) => CountAnswer(Affected(n))
    case Ok(out) => if encode(out).Some? then Failed(encode(out).value) else RowsAnswer(out)
  }

  /** A statement as `prepare_portal` leaves it: the text to send and its parameters. */
  datatype Prepared = Prepared(sql: string, params: seq<Param>)

  /** The ledger once the calls of an attempt are made. */
  ghost function Sent(l: Ledger, a: Attempt, params: seq<Param>): Ledger {
    Ledger(l.log + Sends(a.sent, params, l.slot), l.slot, l.failed || (a.reply.Err? && l.slot.Some?))
  }

  /** The source's `run_statement`: the ledger after it, and its answer. */
  ghost function Ran(l: Ledger, raw: string, stmt: Prepared, w: World): (Ledger, Answer) {
    match TransactionControl(raw)
    case Some(control) => (Controlled(l, control, w.oracle), ControlReply(l, control, w.oracle))
    case None =>
      if w.hazard(stmt.sql).Some? then (l, Failed(w.hazard(stmt.sql).value))
      else
        var a := Attempted(stmt.sql, w.oracle, |l.log|);
        (Sent(l, a, stmt.params), AnswerOf(a.reply, w.encode))
  }

  /** The calls one run of a statement makes: none if it is refused as a hazard, one at
      most for transaction control, and else those of the fallback. */
  ghost function RunCalls(l: Ledger, raw: string, stmt: Prepared, w: World): seq<Call> {
    match TransactionControl(raw)
    case Some(control) => ControlCalls(l, control)
    case None =>
      if w.hazard(stmt.sql).Some? then []
      else Sends(Attempted(stmt.sql, w.oracle, |l.log|).sent, stmt.params, l.slot)
  }

  lemma RanMakes(l: Ledger, raw: string, stmt: Prepared, w: World)
    ensures Ran(l, raw, stmt, w).0.log == l.log + RunCalls(l, raw, stmt, w)
  {
    hide TransactionControl, Attempted, Controlled, ControlCalls;
    if TransactionControl(raw).Some? {
      ControlMakes(l, TransactionControl(raw).value, w.oracle);
    }
  }

  /** What `answer` tells of a statement whose calls began at place `at` of the log: rows or
      a count are the reply to the call that decides, the third of three or else the first,
      handed on whole; a failure is an error reply there, told by the first reply, or rows
      that cannot be encoded. */
  ghost predicate Told(answer: Answer, at: nat, calls: nat, w: World) {
    var decided := w.oracle(if calls == 3 then at + 2 else at);
    match answer
    case RowsAnswer(out) => decided == Ok(out) && out.Rows? && w.encode(out).None?
    case CountAnswer(out) => decided == Ok(out) && out.Affected?
    case Failed(e) =>
      || (decided.Err? && w.oracle(at) == Err(e))
      || (decided.Ok? && decided.value.Rows? && w.encode(decided.value) == Some(e))
    case _ => false
  }

  /** The answer to a run, by the replies of the Data API: for transaction control the
      error of its one call, or its tag, which is ROLLBACK for a COMMIT that failed; for a
      hazard its refusal; for anything else what was told. */
  ghost predicate AnswersRun(answer: Answer, l: Ledger, raw: string, stmt: Prepared, w: World) {
    var at := |l.log|;
    match TransactionControl(raw)
    case Some(control) =>
      if (control == Begin) == l.slot.None? && w.oracle(at).Err? then answer == Failed(w.oracle(at).error)
      else answer == ControlAnswer(if control == Commit && l.failed then Rollback else control)
    case None =>
      if w.hazard(stmt.sql).Some? then answer == Failed(w.hazard(stmt.sql).value)
      else Told(answer, at, |RunCalls(l, raw, stmt, w)|, w)
  }

  lemma RanAnswers(l: Ledger, raw: string, stmt: Prepared, w: World)
    ensures AnswersRun(Ran(l, raw, stmt, w).1, l, raw, stmt, w)
  {
    hide TransactionControl, Attempted;
    AttemptDecides(stmt.sql, w.oracle, |l.log|);
  }

  /** And no other answer fits. */
  lemma OneAnswer(a: Answer, b: Answer, l: Ledger, raw: string, stmt: Prepared, w: World)
    requires AnswersRun(a, l, raw, stmt, w) && AnswersRun(b, l, raw, stmt, w)
    ensures a == b
  {
    hide TransactionControl, RunCalls;
  }

  /** When a run makes any call at all. */
  ghost predicate Reaches(l: Ledger, raw: string, stmt: Prepared, w: World) {
    match TransactionControl(raw)
    case Some(Begin) => l.slot.None?
    case Some(_) => l.slot.Some?
    case None => w.hazard(stmt.sql).None?
  }

  lemma ReachesExactly(l: Ledger, raw: string, stmt: Prepared, w: World)
    ensures RunCalls(l, raw, stmt, w) != [] <==> Reaches(l, raw, stmt, w)
  {
    hide TransactionControl, Attempted;
    WriteSentOnce(stmt.sql, w.oracle, |l.log|);
  }

  /** A statement that writes is one call, with its own text and parameters. */
  lemma WriteIsOneCall(l: Ledger, raw: string, stmt: Prepared, w: World)
    requires TransactionControl(raw).None? && w.hazard(stmt.sql).None? && ModifiesData(stmt.sql)
    ensures RunCalls(l, raw, stmt, w) == [Execute(stmt.sql, stmt.params, l.slot)]
  {
    hide TransactionControl, ModifiesData;
    WriteSentOnce(stmt.sql, w.oracle, |l.log|);
  }

  // ----------------------------------------------------------------- the protocol

  datatype State = State(ledger: Ledger, parked: map<PortalId, Outcome>, held: map<PortalId, Outcome>)

  datatype Command =
    | DescribePortal(portal: PortalId, raw: string, stmt: Result<Prepared, ErrorInfo>)
    | ExecutePortal(portal: PortalId, raw: string, stmt: Result<Prepared, ErrorInfo>)
    /** One statement of a simple query: no portal and no parameters. */
    | SimpleStatement(text: string)
    | Other(op: Op)

  predicate ForPortal(c: Command) { c.DescribePortal? || c.ExecutePortal? }

  function SimplePrepared(text: string): Prepared { Prepared(Rewrite(text, CastReplacement([])), []) }

  /** Run the statement, as prepared for sending. */
  ghost function RunFor(s: State, raw: string, stmt: Result<Prepared, ErrorInfo>, w: World): (State, Answer) {
    match stmt
    case Err(e) => (s, Failed(e))
    case Ok(prepared) =>
      var (ledger, answer) := Ran(s.ledger, raw, prepared, w);
      (s.(ledger := ledger), answer)
  }

  ghost function Described(s: State, p: PortalId, raw: string, stmt: Result<Prepared, ErrorInfo>,
      w: World): (State, Answer) {
    if TransactionControl(raw).Some? then (s, NoData)
    else
      var (after, answer) := RunFor(s, raw, stmt, w);
      match answer
      case RowsAnswer(out) => (after.(parked := after.parked[p := out]), answer)
      case CountAnswer(out) => (after.(held := after.held[p := out]), NoData)
      case _ => (after, answer)
  }

  ghost function Executed(s: State, p: PortalId, raw: string, stmt: Result<Prepared, ErrorInfo>,
      w: World): (State, Answer) {
    if p in s.held then (s.(held := s.held - {p}), CountAnswer(s.held[p]))
    else if p in s.parked then (s, RowsAnswer(s.parked[p]))
    else
      var (after, answer) := RunFor(s, raw, stmt, w);
      match answer
      case RowsAnswer(out) => (after.(parked := after.parked[p := out]), answer)
      case _ => (after, answer)
  }

  ghost function Next(s: State, c: Command, w: World): (State, Answer) {
    match c
    case DescribePortal(p, raw, stmt) => Described(s, p, raw, stmt, w)
    case ExecutePortal(p, raw, stmt) => Executed(s, p, raw, stmt, w)
    case SimpleStatement(text) => RunFor(s, text, Ok(SimplePrepared(text)), w)
    case Other(op) => (s.(ledger := Step(s.ledger, op, w.oracle)), NoData)
  }

  ghost function RunAll(s: State, cs: seq<Command>, w: World): State
    decreases |cs|
  {
    if cs == [] then s else RunAll(Next(s, cs[0], w).0, cs[1..], w)
  }

  // ------------------------------------------------------- which command made a call

  /** A call in the log, and the command during which it was made. */
  datatype Made = Made(call: Call, during: Command)

  function AllBy(calls: seq<Call>, c: Command): (r: seq<Made>)
    ensures |r| == |calls| && forall i :: 0 <= i < |r| ==> r[i] == Made(calls[i], c)
  {
    seq(|calls|, i requires 0 <= i < |calls| => Made(calls[i], c))
  }

  /** What the log gains between two states. */
  function Growth(before: State, after: State): seq<Call> {
    if |before.ledger.log| <= |after.ledger.log| then after.ledger.log[|before.ledger.log|..] else []
  }

  ghost function Trace(s: State, cs: seq<Command>, w: World): seq<Made>
    decreases |cs|
  {
    if cs == [] then []
    else
      var next := Next(s, cs[0], w).0;
      AllBy(Growth(s, next), cs[0]) + Trace(next, cs[1..], w)
  }

  function CallsIn(trace: seq<Made>): (r: seq<Call>)
    ensures |r| == |trace| && forall i :: 0 <= i < |r| ==> r[i] == trace[i].call
  {
    seq(|trace|, i requires 0 <= i < |trace| => trace[i].call)
  }

  predicate Concerns(c: Command, p: PortalId) { ForPortal(c) && c.portal == p }

  /** The calls in a trace that were made during the commands of portal `p`. */
  function CallsFor(trace: seq<Made>, p: PortalId): seq<Call> {
    if trace == [] then []
    else (if Concerns(trace[0].during, p) then [trace[0].call] else []) + CallsFor(trace[1..], p)
  }

  lemma NextGrows(s: State, c: Command, w: World)
    ensures s.ledger.log <= Next(s, c, w).0.ledger.log
    ensures Next(s, c, w).0.ledger.log == s.ledger.log + Growth(s, Next(s, c, w).0)
  {
    hide TransactionControl, Attempted, Ran;
    if ForPortal(c) && c.stmt.Ok? {
      RanMakes(s.ledger, c.raw, c.stmt.value, w);
    } else if c.SimpleStatement? {
      RanMakes(s.ledger, c.text, SimplePrepared(c.text), w);
    }
  }

  /** The trace is the log: each call since the start is in it once, in order. */
  lemma {:induction false} TraceIsLog(s: State, cs: seq<Command>, w: World)
    ensures RunAll(s, cs, w).ledger.log == s.ledger.log + CallsIn(Trace(s, cs, w))
    decreases |cs|
  {
    hide Next, Growth;
    if cs != [] {
      var next := Next(s, cs[0], w).0;
      NextGrows(s, cs[0], w);
      TraceIsLog(next, cs[1..], w);
      var grown, rest := AllBy(Growth(s, next), cs[0]), Trace(next, cs[1..], w);
      assert CallsIn(grown) == Growth(s, next);
      assert CallsIn(grown + rest) == CallsIn(grown) + CallsIn(rest);
      hide AllBy, CallsIn;
      assert (s.ledger.log + Growth(s, next)) + CallsIn(rest) == s.ledger.log + (Growth(s, next) + CallsIn(rest));
    } else {
      assert s.ledger.log + CallsIn([]) == s.ledger.log;
    }
  }

  lemma {:induction false} RunConcat(s: State, a: seq<Command>, b: seq<Command>, w: World)
    ensures RunAll(s, a + b, w) == RunAll(RunAll(s, a, w), b, w)
    ensures Trace(s, a + b, w) == Trace(s, a, w) + Trace(RunAll(s, a, w), b, w)
    decreases |a|
  {
    hide Next;
    if a == [] {
      assert a + b == b;
    } else {
      var next := Next(s, a[0], w).0;
      RunConcat(next, a[1..], b, w);
      assert (a + b)[0] == a[0] && (a + b)[1..] == a[1..] + b;
      Seqs.Regroup(Trace(s, a + b, w), Trace(s, a, w), Trace(next, a[1..] + b, w),
        AllBy(Growth(s, next), a[0]), Trace(next, a[1..], w), Trace(RunAll(s, a, w), b, w));
    }
  }

  lemma RunOne(s: State, c: Command, w: World)
    ensures RunAll(s, [c], w) == Next(s, c, w).0
    ensures Trace(s, [c], w) == AllBy(Growth(s, Next(s, c, w).0), c)
  {
    hide Next;
    assert [c][1..] == [];
    assert RunAll(Next(s, c, w).0, [], w) == Next(s, c, w).0;
  }

  lemma {:induction false} CallsForConcat(a: seq<Made>, b: seq<Made>, p: PortalId)
    ensures CallsFor(a + b, p) == CallsFor(a, p) + CallsFor(b, p)
    decreases |a|
  {
    if a == [] {
      assert a + b == b;
    } else {
      CallsForConcat(a[1..], b, p);
      assert (a + b)[1..] == a[1..] + b;
    }
  }

  lemma {:induction false} CallsForAll(calls: seq<Call>, c: Command, p: PortalId)
    ensures CallsFor(AllBy(calls, c), p) == if Concerns(c, p) then calls else []
    decreases |calls|
  {
    if calls != [] {
      CallsForAll(calls[1..], c, p);
      assert AllBy(calls, c)[1..] == AllBy(calls[1..], c);
    }
  }

  // -------------------------------------------------------------- one portal alone

  predicate Quiet(cs: seq<Command>, p: PortalId) { forall i :: 0 <= i < |cs| ==> !Concerns(cs[i], p) }

  /** `s` and `t` agree on what waits for `p`. */
  ghost predicate SameFor(s: State, t: State, p: PortalId) {
    && (p in s.parked <==> p in t.parked) && (p in s.parked ==> s.parked[p] == t.parked[p])
    && (p in s.held <==> p in t.held) && (p in s.held ==> s.held[p] == t.held[p])
  }

  lemma QuietStep(s: State, c: Command, p: PortalId, w: World)
    requires !Concerns(c, p)
    ensures SameFor(s, Next(s, c, w).0, p)
  {
    hide Ran, TransactionControl, Step;
  }

  /** Whatever happens to other portals and to the session changes nothing for this one,
      and makes no call on its behalf. */
  lemma {:induction false} QuietRun(s: State, cs: seq<Command>, p: PortalId, w: World)
    requires Quiet(cs, p)
    ensures SameFor(s, RunAll(s, cs, w), p)
    ensures CallsFor(Trace(s, cs, w), p) == []
    decreases |cs|
  {
    if cs != [] {
      hide Next;
      var next := Next(s, cs[0], w).0;
      QuietStep(s, cs[0], p, w);
      QuietRun(next, cs[1..], p, w);
      CallsForAll(Growth(s, next), cs[0], p);
      CallsForConcat(AllBy(Growth(s, next), cs[0]), Trace(next, cs[1..], w), p);
    }
  }

  ghost predicate Fresh(s: State, p: PortalId) { p !in s.parked && p !in s.held }

  /** The calls Execute makes for a portal nothing waits for, and its answer. */
  lemma ExecuteAlone(s: State, p: PortalId, raw: string, stmt: Prepared, w: World)
    requires Fresh(s, p)
    ensures var (t, answer) := Executed(s, p, raw, Ok(stmt), w);
      && Growth(s, t) == RunCalls(s.ledger, raw, stmt, w)
      && answer == Ran(s.ledger, raw, stmt, w).1
  {
    hide Ran, RunCalls;
    RanMakes(s.ledger, raw, stmt, w);
    Appended(s.ledger.log, RunCalls(s.ledger, raw, stmt, w));
  }

  lemma Appended<T>(a: seq<T>, b: seq<T>)
    ensures (a + b)[|a|..] == b
  {
  }

  /** Describe changes nothing and calls nobody for transaction control; anything else it
      runs once. */
  lemma DescribeAlone(s: State, p: PortalId, raw: string, stmt: Result<Prepared, ErrorInfo>, w: World)
    ensures var t := Described(s, p, raw, stmt, w).0;
      if TransactionControl(raw).Some? || stmt.Err? then t == s
      else Growth(s, t) == RunCalls(s.ledger, raw, stmt.value, w)
  {
    hide Ran, RunCalls, TransactionControl;
    if stmt.Ok? {
      RanMakes(s.ledger, raw, stmt.value, w);
      Appended(s.ledger.log, RunCalls(s.ledger, raw, stmt.value, w));
    }
  }

  lemma RanKinds(l: Ledger, raw: string, stmt: Prepared, w: World)
    requires TransactionControl(raw).None?
    ensures var answer := Ran(l, raw, stmt, w).1; answer.RowsAnswer? || answer.CountAnswer? || answer.Failed?
  {
    hide TransactionControl, Attempted;
  }

  /** The calls of a Describe followed by an Execute, and what Execute answers. */
  lemma DescribeExecutePair(s: State, p: PortalId, raw: string, stmt: Result<Prepared, ErrorInfo>, t: State, w: World)
    requires Fresh(s, p)
    requires SameFor(Described(s, p, raw, stmt, w).0, t, p)
    requires !Described(s, p, raw, stmt, w).1.Failed? && !Executed(t, p, raw, stmt, w).1.Failed?
    ensures stmt.Ok?
    ensures var l := if TransactionControl(raw).Some? then t.ledger else s.ledger;
      && Growth(s, Described(s, p, raw, stmt, w).0) + Growth(t, Executed(t, p, raw, stmt, w).0)
           == RunCalls(l, raw, stmt.value, w)
      && Executed(t, p, raw, stmt, w).1 == Ran(l, raw, stmt.value, w).1
  {
    hide Ran, RunCalls, TransactionControl;
    DescribeAlone(s, p, raw, stmt, w);
    if stmt.Ok? {
      if TransactionControl(raw).Some? {
        ExecuteAlone(t, p, raw, stmt.value, w);
      } else {
        RanKinds(s.ledger, raw, stmt.value, w);
      }
    }
  }

  /** What Describe answers: nothing for transaction control and for a statement without
      rows, the rows' description otherwise, and an error if the run failed. */
  lemma DescribeAnswers(s: State, p: PortalId, raw: string, stmt: Result<Prepared, ErrorInfo>, w: World)
    ensures var answer := Described(s, p, raw, stmt, w).1;
      if TransactionControl(raw).Some? then answer == NoData
      else if stmt.Err? then answer == Failed(stmt.error)
      else if answer == NoData then exists out :: AnswersRun(CountAnswer(out), s.ledger, raw, stmt.value, w)
      else (answer.RowsAnswer? || answer.Failed?) && AnswersRun(answer, s.ledger, raw, stmt.value, w)
  {
    hide TransactionControl, Ran, AnswersRun;
    if TransactionControl(raw).None? && stmt.Ok? {
      RanAnswers(s.ledger, raw, stmt.value, w);
      RanKinds(s.ledger, raw, stmt.value, w);
      var answer := Ran(s.ledger, raw, stmt.value, w).1;
      if answer.CountAnswer? {
        assert AnswersRun(CountAnswer(answer.out), s.ledger, raw, stmt.value, w);
      }
    }
  }

  /** Exactly once: over any run in which a portal is described and then executed, with
      anything at all happening to other portals before, between and after, and both
      commands succeed, the calls in the log made on its behalf are those of one run of
      its statement, and Execute answers with that run's answer. */
  lemma DescribeThenExecute(
      s: State, p: PortalId, raw: string, stmt: Result<Prepared, ErrorInfo>,
      before: seq<Command>, between: seq<Command>, after: seq<Command>, w: World)
    requires Fresh(s, p) && Quiet(before, p) && Quiet(between, p) && Quiet(after, p)
    ensures
      var describe, execute := DescribePortal(p, raw, stmt), ExecutePortal(p, raw, stmt);
      var s1 := RunAll(s, before, w);
      var (s2, described) := Next(s1, describe, w);
      var s3 := RunAll(s2, between, w);
      var executed := Next(s3, execute, w).1;
      var l := if TransactionControl(raw).Some? then s3.ledger else s1.ledger;
      var calls := CallsFor(Trace(s, before + [describe] + between + [execute] + after, w), p);
      !described.Failed? && !executed.Failed? ==>
        && stmt.Ok? && calls == RunCalls(l, raw, stmt.value, w)
        && executed == Ran(l, raw, stmt.value, w).1 && AnswersRun(executed, l, raw, stmt.value, w)
  {
    hide Next, Ran, RunCalls, TransactionControl, AnswersRun;
    var describe, execute := DescribePortal(p, raw, stmt), ExecutePortal(p, raw, stmt);
    var s1 := RunAll(s, before, w);
    var s2 := Next(s1, describe, w).0;
    var s3 := RunAll(s2, between, w);
    QuietRun(s, before, p, w);
    QuietRun(s2, between, p, w);
    TwoCommands(s, p, describe, execute, before, between, after, w);
    NextIs(s1, p, raw, stmt, w);
    NextIs(s3, p, raw, stmt, w);
    if !Next(s1, describe, w).1.Failed? && !Next(s3, execute, w).1.Failed? {
      DescribeExecutePair(s1, p, raw, stmt, s3, w);
      RanAnswers(if TransactionControl(raw).Some? then s3.ledger else s1.ledger, raw, stmt.value, w);
    }
  }

  /** So a statement that writes goes out exactly once, as it was prepared. */
  lemma WriteGoesOutOnce(
      s: State, p: PortalId, raw: string, stmt: Result<Prepared, ErrorInfo>,
      before: seq<Command>, between: seq<Command>, after: seq<Command>, w: World)
    requires Fresh(s, p) && Quiet(before, p) && Quiet(between, p) && Quiet(after, p)
    requires TransactionControl(raw).None? && (stmt.Ok? ==> ModifiesData(stmt.value.sql))
    ensures
      var describe, execute := DescribePortal(p, raw, stmt), ExecutePortal(p, raw, stmt);
      var s1 := RunAll(s, before, w);
      var (s2, described) := Next(s1, describe, w);
      var executed := Next(RunAll(s2, between, w), execute, w).1;
      !described.Failed? && !executed.Failed? ==>
        && stmt.Ok?
        && CallsFor(Trace(s, before + [describe] + between + [execute] + after, w), p)
             == [Execute(stmt.value.sql, stmt.value.params, s1.ledger.slot)]
  {
    hide RunAll, Trace, CallsFor, TransactionControl, ModifiesData, Attempted;
    var s1 := RunAll(s, before, w);
    DescribeThenExecute(s, p, raw, stmt, before, between, after, w);
    if stmt.Ok? && w.hazard(stmt.value.sql).None? {
      WriteIsOneCall(s1.ledger, raw, stmt.value, w);
    }
  }

  lemma NextIs(s: State, p: PortalId, raw: string, stmt: Result<Prepared, ErrorInfo>, w: World)
    ensures Next(s, DescribePortal(p, raw, stmt), w) == Described(s, p, raw, stmt, w)
    ensures Next(s, ExecutePortal(p, raw, stmt), w) == Executed(s, p, raw, stmt, w)
  {
  }

  /** The calls made for a portal that only two commands of a run concern. */
  lemma TwoCommands(s: State, p: PortalId, c: Command, d: Command,
      before: seq<Command>, between: seq<Command>, after: seq<Command>, w: World)
    requires Quiet(before, p) && Quiet(between, p) && Quiet(after, p) && Concerns(c, p) && Concerns(d, p)
    ensures
      var s1 := RunAll(s, before, w);
      var s3 := RunAll(Next(s1, c, w).0, between, w);
      CallsFor(Trace(s, before + [c] + between + [d] + after, w), p) ==
        Growth(s1, Next(s1, c, w).0) + Growth(s3, Next(s3, d, w).0)
  {
    hide Next, Growth, RunAll, Trace, CallsFor;
    OneCommand(s, p, c, before, between, w);
    var head := before + [c] + between;
    var s3 := RunAll(s, head, w);
    RunConcat(s, head, [d], w);
    RunConcat(s, head + [d], after, w);
    RunOne(s3, d, w);
    QuietRun(RunAll(s, head + [d], w), after, p, w);
    CallsForAll(Growth(s3, Next(s3, d, w).0), d, p);
    CallsForConcat(Trace(s, head, w), Trace(s3, [d], w), p);
    CallsForConcat(Trace(s, head + [d], w), Trace(RunAll(s, head + [d], w), after, w), p);
  }

  lemma OneCommand(s: State, p: PortalId, c: Command, before: seq<Command>, after: seq<Command>, w: World)
    requires Quiet(before, p) && Quiet(after, p) && Concerns(c, p)
    ensures
      var s1 := RunAll(s, before, w);
      && RunAll(s, before + [c] + after, w) == RunAll(Next(s1, c, w).0, after, w)
      && CallsFor(Trace(s, before + [c] + after, w), p) == Growth(s1, Next(s1, c, w).0)
  {
    hide Next, Growth, RunAll, Trace, CallsFor;
    var s1 := RunAll(s, before, w);
    RunConcat(s, before, [c], w);
    RunConcat(s, before + [c], after, w);
    RunOne(s1, c, w);
    QuietRun(s, before, p, w);
    QuietRun(RunAll(s, before + [c], w), after, p, w);
    CallsForAll(Growth(s1, Next(s1, c, w).0), c, p);
    CallsForConcat(Trace(s, before, w), Trace(s1, [c], w), p);
    CallsForConcat(Trace(s, before + [c], w), Trace(RunAll(s, before + [c], w), after, w), p);
  }

  /** The same when the client skips Describe, whether or not the statement succeeds. */
  lemma ExecuteOnly(s: State, p: PortalId, raw: string, stmt: Result<Prepared, ErrorInfo>,
      before: seq<Command>, after: seq<Command>, w: World)
    requires Fresh(s, p) && Quiet(before, p) && Quiet(after, p)
    ensures
      var execute := ExecutePortal(p, raw, stmt);
      var s1 := RunAll(s, before, w);
      var calls := CallsFor(Trace(s, before + [execute] + after, w), p);
      if stmt.Ok? then
        && calls == RunCalls(s1.ledger, raw, stmt.value, w)
        && Next(s1, execute, w).1 == Ran(s1.ledger, raw, stmt.value, w).1
        && AnswersRun(Next(s1, execute, w).1, s1.ledger, raw, stmt.value, w)
      else calls == []
  {
    hide Next, Ran, RunCalls, AnswersRun;
    var s1 := RunAll(s, before, w);
    QuietRun(s, before, p, w);
    OneCommand(s, p, ExecutePortal(p, raw, stmt), before, after, w);
    NextIs(s1, p, raw, stmt, w);
    if stmt.Ok? {
      ExecuteAlone(s1, p, raw, stmt.value, w);
      RanAnswers(s1.ledger, raw, stmt.value, w);
    }
  }

  // ------------------------------------------------------- where the guarantee ends

  /** A second Describe makes the calls of a second run, unless the statement is
      transaction control; so it reaches the Data API again exactly if the statement is
      neither that nor refused as a hazard. */
  lemma SecondDescribe(s: State, p: PortalId, raw: string, stmt: Prepared, w: World)
    ensures
      var s1 := Described(s, p, raw, Ok(stmt), w).0;
      var s2 := Described(s1, p, raw, Ok(stmt), w).0;
      && Growth(s1, s2) == (if TransactionControl(raw).Some? then [] else RunCalls(s1.ledger, raw, stmt, w))
      && (Growth(s1, s2) != [] <==> TransactionControl(raw).None? && w.hazard(stmt.sql).None?)
  {
    hide TransactionControl, Described, RunCalls;
    var s1 := Described(s, p, raw, Ok(stmt), w).0;
    DescribeAlone(s1, p, raw, Ok(stmt), w);
    ReachesExactly(s1.ledger, raw, stmt, w);
  }

  /** A second Execute makes the calls of a second run exactly if the first one did not
      answer with rows. */
  lemma SecondExecute(s: State, p: PortalId, raw: string, stmt: Prepared, w: World)
    requires Fresh(s, p)
    ensures
      var (s1, first) := Executed(s, p, raw, Ok(stmt), w);
      var s2 := Executed(s1, p, raw, Ok(stmt), w).0;
      && Growth(s1, s2) == (if first.RowsAnswer? then [] else RunCalls(s1.ledger, raw, stmt, w))
      && (Growth(s1, s2) != [] <==> !first.RowsAnswer? && Reaches(s1.ledger, raw, stmt, w))
  {
    hide TransactionControl, Ran, RunCalls, Reaches;
    var (s1, first) := Executed(s, p, raw, Ok(stmt), w);
    ReachesExactly(s1.ledger, raw, stmt, w);
    if !first.RowsAnswer? {
      ExecuteAlone(s1, p, raw, stmt, w);
    }
  }

  /** The same after a Describe, when the held tag is used up. */
  lemma SecondExecuteAfterDescribe(s: State, p: PortalId, raw: string, stmt: Prepared, w: World)
    requires Fresh(s, p)
    ensures
      var s1 := Described(s, p, raw, Ok(stmt), w).0;
      var (s2, first) := Executed(s1, p, raw, Ok(stmt), w);
      var s3 := Executed(s2, p, raw, Ok(stmt), w).0;
      && Growth(s2, s3) == (if first.RowsAnswer? then [] else RunCalls(s2.ledger, raw, stmt, w))
      && (Growth(s2, s3) != [] <==> !first.RowsAnswer? && Reaches(s2.ledger, raw, stmt, w))
  {
    hide TransactionControl, Ran, RunCalls, Reaches;
    var s1 := Described(s, p, raw, Ok(stmt), w).0;
    var (s2, first) := Executed(s1, p, raw, Ok(stmt), w);
    ReachesExactly(s2.ledger, raw, stmt, w);
    if !first.RowsAnswer? {
      ExecuteAlone(s2, p, raw, stmt, w);
    }
  }

  // ------------------------------------------------------ the books, over the protocol

  lemma {:induction false} SendsBalanced(l: Ledger, sent: seq<string>, params: seq<Param>, oracle: Oracle)
    requires Balanced(l, oracle)
    ensures Balanced(l.(log := l.log + Sends(sent, params, l.slot)), oracle)
    decreases |sent|
  {
    if sent == [] {
      assert l.log + Sends(sent, params, l.slot) == l.log;
    } else {
      var first := l.(log := l.log + [Execute(sent[0], params, l.slot)]);
      BalancedExecute(l, sent[0], params, oracle);
      SendsBalanced(first, sent[1..], params, oracle);
      assert l.log + Sends(sent, params, l.slot) == first.log + Sends(sent[1..], params, l.slot);
    }
  }

  lemma RanBalanced(l: Ledger, raw: string, stmt: Prepared, w: World)
    requires Balanced(l, w.oracle)
    ensures Balanced(Ran(l, raw, stmt, w).0, w.oracle)
  {
    hide Attempted, TransactionControl;
    match TransactionControl(raw) {
      case Some(control) =>
        StepBalanced(l, Op.Control(control), w.oracle);
      case None =>
        if w.hazard(stmt.sql).None? {
          var a := Attempted(stmt.sql, w.oracle, |l.log|);
          SendsBalanced(l, a.sent, stmt.params, w.oracle);
        }
    }
  }

  /** Whatever the client does with its portals, the transaction ledger stays balanced:
      nothing is left open, ended twice or ended without having been opened. */
  lemma {:induction false} ProtocolBalanced(s: State, cs: seq<Command>, w: World)
    requires Balanced(s.ledger, w.oracle)
    requires forall i :: 0 <= i < |cs| && cs[i].Other? && cs[i].op.Disconnect? ==> cs[i].op.inRuntime
    ensures Balanced(RunAll(s, cs, w).ledger, w.oracle)
    decreases |cs|
  {
    if cs != [] {
      hide Ran, Balanced, Step, TransactionControl;
      var c := cs[0];
      if c.Other? {
        StepBalanced(s.ledger, c.op, w.oracle);
      } else if c.SimpleStatement? {
        RanBalanced(s.ledger, c.text, SimplePrepared(c.text), w);
      } else if c.stmt.Ok? {
        RanBalanced(s.ledger, c.raw, c.stmt.value, w);
      }
      ProtocolBalanced(Next(s, c, w).0, cs[1..], w);
    }
  }

  // ------------------------------------------------------------------ the handler

  /** What a connection remembers of shapes once a statement was run: nothing if the
      statement went through and could have changed one. */
  ghost function Remembered<V>(shapes: Shapes.Levels<V>, l: Ledger, raw: string, stmt: Prepared, w: World):
      Shapes.Levels<V>
  {
    if TransactionControl(raw).None? && w.hazard(stmt.sql).None? && ChangesSchema(raw)
      && Attempted(stmt.sql, w.oracle, |l.log|).reply.Ok?
    then Shapes.Levels([], []) else shapes
  }

  /** Shapes are forgotten exactly when a statement that opens with one of five words went
      through: the call that decides was answered with success. */
  lemma ForgottenExactly<V>(shapes: Shapes.Levels<V>, l: Ledger, raw: string, stmt: Prepared, w: World)
    ensures var n := |RunCalls(l, raw, stmt, w)|;
      var words := LeadingWords(raw, 1);
      Remembered(shapes, l, raw, stmt, w) ==
        if TransactionControl(raw).None? && n > 0 && w.oracle(|l.log| + if n == 3 then 2 else 0).Ok? && |words| > 0
          && (words[0] == "CREATE" || words[0] == "ALTER" || words[0] == "DROP" || words[0] == "REINDEX" ||
              words[0] == "REFRESH")
        then Shapes.Levels([], []) else shapes
  {
    hide TransactionControl, Attempted, LeadingWords;
    AttemptDecides(stmt.sql, w.oracle, |l.log|);
  }

  /** One connection's handler: its session, what it remembers of shapes, the rows parked
      on started portals and the tags held for portals that have none. */
  class Handler<V> {
    const session: Session
    const shapes: Shapes.SessionShapes<V>
    const hazard: string -> Option<ErrorInfo>
    const encode: Outcome -> Option<ErrorInfo>
    var parked: map<PortalId, Outcome>
    var held: map<PortalId, Outcome>

    ghost function View(): State
      reads this, session, session.api
    {
      State(session.View(), parked, held)
    }

    ghost function Around(): World { World(hazard, encode, session.api.oracle) }

    constructor (session: Session, shapes: Shapes.SessionShapes<V>,
        hazard: string -> Option<ErrorInfo>, encode: Outcome -> Option<ErrorInfo>)
      ensures this.session == session && this.shapes == shapes
      ensures this.hazard == hazard && this.encode == encode
      ensures parked == map[] && held == map[]
    {
      this.session, this.shapes, this.hazard, this.encode := session, shapes, hazard, encode;
      parked, held := map[], map[];
    }

    method RunStatement(raw: string, stmt: Prepared) returns (answer: Answer)
      requires shapes.Valid()
      modifies session, session.api, shapes.describeCache, shapes.shapes.entries
      ensures shapes.Valid()
      ensures (session.View(), answer) == Ran(old(session.View()), raw, stmt, Around())
      ensures AnswersRun(answer, old(session.View()), raw, stmt, Around())
      ensures shapes.View() == Remembered(old(shapes.View()), old(session.View()), raw, stmt, Around())
    {
      hide Attempted, TransactionControl, AnswersRun;
      var words := LeadingWordsMethod(raw, 2);
      ControlIs(raw);
      RanAnswers(session.View(), raw, stmt, Around());
      match ControlOf(words) {
        case Some(control) =>
          var done := session.RunTransactionControl(control);
          match done {
            case Err(e) => return Failed(e);
            case Ok(tag) => return ControlAnswer(tag);
          }
        case None =>
          match hazard(stmt.sql) {
            case Some(e) =>
              return Failed(e);
            case None =>
              var reply := ExecuteWithFallback(session, stmt.sql, stmt.params);
              if reply.Err? {
                return AnswerOf(reply, encode);
              }
              var first := LeadingWordsMethod(raw, 1);
              if first != [] && first[0] in SCHEMA_WORDS {
                shapes.ForgetShapes();
              }
              return AnswerOf(reply, encode);
          }
      }
    }

    /** The source's `do_describe_portal`, given what `prepare_portal` made of it. */
    method DoDescribePortal(p: PortalId, raw: string, stmt: Result<Prepared, ErrorInfo>) returns (answer: Answer)
      requires shapes.Valid()
      modifies this, session, session.api, shapes.describeCache, shapes.shapes.entries
      ensures shapes.Valid()
      ensures (View(), answer) == Next(old(View()), DescribePortal(p, raw, stmt), Around())
    {
      hide Ran, TransactionControl;
      var words := LeadingWordsMethod(raw, 2);
      ControlIs(raw);
      if ControlOf(words).Some? {
        return NoData;
      }
      match stmt {
        case Err(e) =>
          return Failed(e);
        case Ok(prepared) =>
          answer := RunStatement(raw, prepared);
          match answer {
            case RowsAnswer(out) =>
              parked := parked[p := out];
            case CountAnswer(out) =>
              held := held[p := out];
              return NoData;
            case _ =>
          }
      }
    }

    /** The source's `on_execute`, with pgwire's replay of a started portal and
        `do_query` for one that was not. */
    method OnExecute(p: PortalId, raw: string, stmt: Result<Prepared, ErrorInfo>) returns (answer: Answer)
      requires shapes.Valid()
      modifies this, session, session.api, shapes.describeCache, shapes.shapes.entries
      ensures shapes.Valid()
      ensures (View(), answer) == Next(old(View()), ExecutePortal(p, raw, stmt), Around())
    {
      hide Ran, TransactionControl;
      if p in held {
        answer := CountAnswer(held[p]);
        held := held - {p};
        return;
      }
      if p in parked {
        return RowsAnswer(parked[p]);
      }
      match stmt {
        case Err(e) =>
          return Failed(e);
        case Ok(prepared) =>
          answer := RunStatement(raw, prepared);
          match answer {
            case RowsAnswer(out) =>
              parked := parked[p := out];
            case _ =>
          }
      }
    }
  }

  lemma ControlIs(raw: string)
    ensures TransactionControl(raw) == ControlOf(LeadingWords(raw, 2))
  {
  }
}
