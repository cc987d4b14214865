/**
  The describe probe, src/probe.rs:74-315: it works out a statement's shape without
  running it, in the caller's transaction behind a savepoint or in one of its own.
*/
module Probe {
  import opened Wrappers
  import opened DataApi
  import opened ServerTx
  import opened Shapes
  import opened SqlBinding
  import opened SqlLexer
  import opened SqlRewrite
  import opened SqlTokens
  import opened SqlWords
  import Decimal

  const WRAPPABLE: set<string> := {"SELECT", "WITH", "VALUES", "TABLE"}

  const METADATA_QUERY := "SELECT (SELECT array_agg(t::text ORDER BY ord) "
    + "FROM unnest(parameter_types) WITH ORDINALITY u(t, ord)) AS pnames, "
    + "(SELECT array_agg(t::oid::int8 ORDER BY ord) "
    + "FROM unnest(result_types) WITH ORDINALITY u(t, ord)) AS roids "
    + "FROM pg_prepared_statements WHERE name = '"

  datatype Shape = Shape(paramTypes: seq<Option<string>>, fields: seq<Field>)

  datatype Field = Field(name: string, oid: int)

  datatype ReturningItem = Named(name: string) | Unnamed | Star

  /** What the model leaves open of a probe: how the metadata row and a column list are
      read, and how a RETURNING clause is parsed. */
  datatype Lens = Lens(
    metadata: Outcome -> Option<(seq<Option<string>>, seq<int>)>,
    fields: seq<Column> -> seq<Field>,
    returning: string -> Option<seq<ReturningItem>>)

  /** One request, in the order they were made. */
  datatype Request =
    | Sent(tx: Option<TxId>, stmt: Stmt, ok: bool)
    | Opened(begun: Option<TxId>)
    | RolledBack(id: TxId)

  /** The cluster: `fate` decides what becomes of each request, and `answer` what a
      query that succeeded returned. A new transaction starts as `start`. */
  class Server<D> {
    const fate: nat -> Fate<D>
    const answer: nat -> Outcome
    const start: Tx<D>
    var txs: map<TxId, Tx<D>>
    var log: seq<Request>

    ghost predicate Valid()
      reads this
    {
      forall id :: id in txs ==> id < |log|
    }

    constructor (fate: nat -> Fate<D>, answer: nat -> Outcome, start: Tx<D>)
      ensures this.fate == fate && this.answer == answer && this.start == start
      ensures Valid() && txs == map[] && log == []
    {
      this.fate, this.answer, this.start := fate, answer, start;
      txs, log := map[], [];
    }

    /** A statement in an open transaction. */
    method Execute(id: TxId, stmt: Stmt) returns (r: Option<Outcome>)
      requires Valid() && id in txs
      modifies this
      ensures Valid()
      ensures txs == old(txs)[id := Called(old(txs)[id], stmt, fate(|old(log)|)).0]
      ensures r.Some? == Called(old(txs)[id], stmt, fate(|old(log)|)).1
      ensures r.Some? ==> r.value == answer(|old(log)|)
      ensures log == old(log) + [Sent(Some(id), stmt, r.Some?)]
    {
      var (after, ok) := Called(txs[id], stmt, fate(|log|));
      txs := txs[id := after];
      r := if ok then Some(answer(|log|)) else None;
      log := log + [Sent(Some(id), stmt, ok)];
    }

    /** A query outside any transaction. */
    method ExecuteAlone(stmt: Stmt) returns (r: Option<Outcome>)
      requires Valid()
      modifies this
      ensures Valid() && txs == old(txs)
      ensures r.Some? ==> r.value == answer(|old(log)|)
      ensures log == old(log) + [Sent(None, stmt, r.Some?)]
    {
      var ok := fate(|log|).Served?;
      r := if ok then Some(answer(|log|)) else None;
      log := log + [Sent(None, stmt, ok)];
    }

    method Begin() returns (r: Option<TxId>)
      requires Valid()
      modifies this
      ensures Valid()
      ensures r.None? ==> txs == old(txs)
      ensures r.Some? ==> r.value !in old(txs) && txs == old(txs)[r.value := start]
      ensures log == old(log) + [Opened(r)]
    {
      r := None;
      if fate(|log|).Served? {
        r := Some(|log|);
        txs := txs[|log| := start];
      }
      log := log + [Opened(r)];
    }

    method Rollback(id: TxId) returns (ok: bool)
      requires Valid()
      modifies this
      ensures Valid() && txs == old(txs) - {id}
      ensures log == old(log) + [RolledBack(id)]
    {
      ok := fate(|log|).Served?;
      txs := txs - {id};
      log := log + [RolledBack(id)];
    }
  }

  // -------------------------------------------------------------- inside the probe

  /** Since `before`, nothing was sent but statements in transaction `id` that prepare
      or query. */
  ghost predicate Inner(before: seq<Request>, after: seq<Request>, id: TxId) {
    && before <= after
    && forall k :: |before| <= k < |after| ==>
         after[k].Sent? && after[k].tx == Some(id) && IsInner(after[k].stmt)
  }

  /** Only transaction `id` was touched, and its savepoints are as they were. */
  ghost predicate Touched<D>(before: map<TxId, Tx<D>>, after: map<TxId, Tx<D>>, id: TxId) {
    && id in before && id in after
    && after == before[id := after[id]]
    && Kept(before[id], after[id])
  }

  /** Since `before`, exactly one statement was sent. */
  predicate OneSent(before: seq<Request>, after: seq<Request>, tx: Option<TxId>, stmt: Stmt) {
    && |after| == |before| + 1 && before <= after
    && after[|before|].Sent? && after[|before|].tx == tx && after[|before|].stmt == stmt
  }

  /** One query of the probe. */
  method Ask<D>(server: Server<D>, id: TxId, stmt: Stmt) returns (r: Option<Outcome>)
    requires server.Valid() && id in server.txs && IsInner(stmt)
    modifies server
    ensures server.Valid() && Inner(old(server.log), server.log, id) && Touched(old(server.txs), server.txs, id)
    ensures OneSent(old(server.log), server.log, Some(id), stmt) && server.log[|old(server.log)|].ok == r.Some?
    ensures r.Some? ==> r.value == server.answer(|old(server.log)|)
  {
    InnerKeeps(server.txs[id], stmt, server.fate(|server.log|));
    r := server.Execute(id, stmt);
  }

  function MetadataStmt(name: string): Stmt { Query(METADATA_QUERY + name + "'") }

  method ReadPreparedMetadata<D>(server: Server<D>, lens: Lens, name: string, id: TxId)
    returns (r: Option<(seq<Option<string>>, seq<int>)>)
    requires server.Valid() && id in server.txs
    modifies server
    ensures server.Valid() && Inner(old(server.log), server.log, id) && Touched(old(server.txs), server.txs, id)
    ensures OneSent(old(server.log), server.log, Some(id), MetadataStmt(name))
    ensures r.Some? ==> server.log[|old(server.log)|].ok && r == lens.metadata(server.answer(|old(server.log)|))
  {
    var outcome := Ask(server, id, Query(METADATA_QUERY + name + "'"));
    return if outcome.None? then None else lens.metadata(outcome.value);
  }

  function ShapeQuery(sql: string, types: seq<Option<string>>): string {
    "SELECT * FROM (" + Rewrite(sql, NullReplacement(types)) + ") AS dapi_shape WHERE false"
  }

  /** The columns of a query, in a transaction or on its own. */
  method SelectFields<D>(server: Server<D>, lens: Lens, sql: string, types: seq<Option<string>>, tx: Option<TxId>)
    returns (r: Option<seq<Field>>)
    requires server.Valid() && (tx.Some? ==> tx.value in server.txs) && ValidUtf8(sql)
    modifies server
    ensures server.Valid()
    ensures tx.Some? ==>
      Inner(old(server.log), server.log, tx.value) && Touched(old(server.txs), server.txs, tx.value)
    ensures OneSent(old(server.log), server.log, tx, Query(ShapeQuery(sql, types)))
    ensures r.Some? ==>
      && server.answer(|old(server.log)|).Rows?
      && r.value == lens.fields(server.answer(|old(server.log)|).columns)
    ensures tx.None? ==> server.txs == old(server.txs)
  {
    var substituted := SubstituteNullParams(sql, types);
    var query := Query("SELECT * FROM (" + substituted + ") AS dapi_shape WHERE false");
    var outcome;
    if tx.Some? {
      outcome := Ask(server, tx.value, query);
    } else {
      outcome := server.ExecuteAlone(query);
    }
    if outcome.None? || !outcome.value.Rows? {
      return None;
    }
    return Some(lens.fields(outcome.value.columns));
  }

  /** The table a write names, as `dml_target_table` gives it. */
  function StarTable(sql: string): Option<string> {
    match TargetAt(Tokens(sql))
    case Some(at) => Some(Dotted(at.1))
    case None => None
  }

  function StarStmt(table: string): Stmt { Query("SELECT * FROM " + table + " WHERE false") }

  /** Request `k` asked for the columns of the table a write names, and got them. */
  predicate StarHad(log: seq<Request>, k: nat, answer: nat -> Outcome, sql: string) {
    && StarTable(sql).Some? && k < |log|
    && log[k].Sent? && log[k].stmt == StarStmt(StarTable(sql).value) && log[k].ok && answer(k).Rows?
  }

  /** The columns of the table a write names, in order. */
  method StarColumns<D>(server: Server<D>, sql: string, id: TxId) returns (r: Option<seq<string>>)
    requires server.Valid() && id in server.txs
    modifies server
    ensures server.Valid() && Inner(old(server.log), server.log, id) && Touched(old(server.txs), server.txs, id)
    ensures if StarTable(sql).None? then server.log == old(server.log)
      else OneSent(old(server.log), server.log, Some(id),
                   Query("SELECT * FROM " + StarTable(sql).value + " WHERE false"))
    ensures r.Some? ==> |server.log| == |old(server.log)| + 1
    ensures r == if StarHad(server.log, |old(server.log)|, server.answer, sql)
      then Some(StarNames(server.answer, |old(server.log)|)) else None
  {
    var table := DmlTargetTable(sql);
    if table.None? {
      return None;
    }
    var outcome := Ask(server, id, Query("SELECT * FROM " + table.value + " WHERE false"));
    if outcome.None? || !outcome.value.Rows? {
      return None;
    }
    return Some(ColumnNames(outcome.value.columns));
  }

  function StarNames(answer: nat -> Outcome, k: nat): seq<string> {
    if answer(k).Rows? then ColumnNames(answer(k).columns) else []
  }

  function ColumnNames(columns: seq<Column>): (names: seq<string>)
    ensures |names| == |columns|
    ensures forall i :: 0 <= i < |columns| ==>
      && (columns[i].alias.Some? ==> names[i] == columns[i].alias.value)
      && (columns[i].alias.None? && columns[i].name.Some? ==> names[i] == columns[i].name.value)
      && (columns[i].alias.None? && columns[i].name.None? ==> names[i] == "column" + Decimal.ToDecimal(i + 1))
  {
    seq(|columns|, i requires 0 <= i < |columns| =>
      if columns[i].alias.Some? then columns[i].alias.value
      else if columns[i].name.Some? then columns[i].name.value
      else Positional(i))
  }

  function Stars(items: seq<ReturningItem>): nat {
    if items == [] then 0
    else Stars(items[..|items| - 1]) + if items[|items| - 1].Star? then 1 else 0
  }

  /** The names of a RETURNING list, its stars answered by the requests from `at` on. */
  function Expand(items: seq<ReturningItem>, at: nat, answer: nat -> Outcome): seq<string>
    decreases |items|
  {
    if items == [] then []
    else
      var rest, last := items[..|items| - 1], items[|items| - 1];
      Expand(rest, at, answer) +
      match last
      case Named(name) => [name]
      case Unnamed => ["?column?"]
      case Star => StarNames(answer, at + Stars(rest))
  }

  /** One more name for an expression, named or not, and the columns of a table for a star. */
  lemma ExpandExactly(items: seq<ReturningItem>, item: ReturningItem, at: nat, answer: nat -> Outcome)
    ensures Expand([], at, answer) == [] && Stars([]) == 0
    ensures Expand(items + [item], at, answer) == Expand(items, at, answer) +
      if item.Named? then [item.name] else if item.Unnamed? then ["?column?"]
      else StarNames(answer, at + Stars(items))
    ensures Stars(items + [item]) == Stars(items) + if item.Star? then 1 else 0
  {
    hide StarNames;
    assert (items + [item])[..|items|] == items;
  }

  /** The metadata are asked of the server's list of prepared statements, by name. */
  lemma MetadataExactly(name: string)
    ensures MetadataStmt(name) == Query("SELECT (SELECT array_agg(t::text ORDER BY ord) "
      + "FROM unnest(parameter_types) WITH ORDINALITY u(t, ord)) AS pnames, "
      + "(SELECT array_agg(t::oid::int8 ORDER BY ord) "
      + "FROM unnest(result_types) WITH ORDINALITY u(t, ord)) AS roids "
      + "FROM pg_prepared_statements WHERE name = '" + name + "'")
  {
  }

  ghost predicate StarsHad(log: seq<Request>, at: nat, n: nat, answer: nat -> Outcome, sql: string) {
    forall j :: at <= j < at + n ==> StarHad(log, j, answer, sql)
  }

  lemma StarsStart(items: seq<ReturningItem>, log: seq<Request>, at: nat, answer: nat -> Outcome, sql: string)
    ensures Stars(items[..0]) == 0 && StarsHad(log, at, 0, answer, sql) && Expand(items[..0], at, answer) == []
  {
  }

  lemma StarMissed(log: seq<Request>, at: nat, n: nat, k: nat, answer: nat -> Outcome, sql: string)
    requires at <= k < at + n && !StarHad(log, k, answer, sql)
    ensures !StarsHad(log, at, n, answer, sql)
  {
  }

  lemma StarsStay(log: seq<Request>, longer: seq<Request>, at: nat, n: nat, answer: nat -> Outcome, sql: string)
    requires log <= longer && StarsHad(log, at, n, answer, sql)
    requires StarHad(longer, at + n, answer, sql)
    ensures StarsHad(longer, at, n + 1, answer, sql)
  {
    forall j | at <= j < at + n ensures StarHad(longer, j, answer, sql) {
      assert StarHad(log, j, answer, sql);
    }
  }

  lemma ExpandGrows(items: seq<ReturningItem>, k: nat, at: nat, answer: nat -> Outcome)
    requires k < |items|
    ensures Expand(items[..k + 1], at, answer) == Expand(items[..k], at, answer) +
      match items[k]
      case Named(name) => [name]
      case Unnamed => ["?column?"]
      case Star => StarNames(answer, at + Stars(items[..k]))
  {
    assert items[..k + 1][..k] == items[..k];
  }

  lemma StarsGrow(items: seq<ReturningItem>, k: nat)
    requires k < |items|
    ensures Stars(items[..k + 1]) == Stars(items[..k]) + if items[k].Star? then 1 else 0
  {
    assert items[..k + 1][..k] == items[..k];
  }

  lemma {:induction false} StarsBound(items: seq<ReturningItem>, k: nat)
    requires k <= |items|
    ensures Stars(items[..k]) <= Stars(items)
    decreases |items| - k
  {
    if k < |items| {
      StarsGrow(items, k);
      StarsBound(items, k + 1);
    } else {
      assert items[..k] == items;
    }
  }

  /** Every name in order, or none at all if the columns of a star cannot be had. */
  method ExpandReturning<D>(server: Server<D>, sql: string, items: seq<ReturningItem>, id: TxId)
    returns (names: seq<string>)
    requires server.Valid() && id in server.txs
    modifies server
    ensures server.Valid() && Inner(old(server.log), server.log, id) && Touched(old(server.txs), server.txs, id)
    ensures names ==
      if StarsHad(server.log, |old(server.log)|, Stars(items), server.answer, sql)
      then Expand(items, |old(server.log)|, server.answer) else []
  {
    hide StarHad, StarTable, StarNames, Expand, Stars, OneSent, StarsHad;
    names := [];
    ghost var at := |server.log|;
    StarsStart(items, server.log, at, server.answer, sql);
    for k := 0 to |items|
      invariant server.Valid() && Inner(old(server.log), server.log, id) && Touched(old(server.txs), server.txs, id)
      invariant |server.log| == at + Stars(items[..k])
      invariant StarsHad(server.log, at, Stars(items[..k]), server.answer, sql)
      invariant names == Expand(items[..k], at, server.answer)
    {
      ExpandGrows(items, k, at, server.answer);
      StarsGrow(items, k);
      StarsBound(items, k + 1);
      match items[k] {
        case Named(name) =>
          names := names + [name];
        case Unnamed =>
          names := names + ["?column?"];
        case Star =>
          ghost var asked := server.log;
          var columns := StarColumns(server, sql, id);
          if columns.None? {
            StarMissed(server.log, at, Stars(items), |asked|, server.answer, sql);
            return [];
          }
          StarsStay(asked, server.log, at, Stars(items[..k]), server.answer, sql);
          names := names + columns.value;
      }
    }
    assert items[..|items|] == items;
  }

  /** The names read off a RETURNING clause, if any; `at` is the first request for a star. */
  ghost function NamesRead(lens: Lens, sql: string, log: seq<Request>, at: nat, answer: nat -> Outcome): seq<string> {
    match lens.returning(sql)
    case None => []
    case Some(items) => if StarsHad(log, at, Stars(items), answer, sql) then Expand(items, at, answer) else []
  }

  /** Every result column gets its own type; its name too, unless the names read off
      the clause do not line up, and then all of them are positional. */
  function FieldsOf(read: seq<string>, oids: seq<int>): (fields: seq<Field>)
    ensures |fields| == |oids|
    ensures forall k :: 0 <= k < |oids| ==> fields[k].oid == oids[k]
    ensures |read| == |oids| ==> forall k :: 0 <= k < |oids| ==> fields[k].name == read[k]
    ensures |read| != |oids| ==> forall k :: 0 <= k < |oids| ==> fields[k].name == "column" + Decimal.ToDecimal(k + 1)
  {
    seq(|oids|, k requires 0 <= k < |oids| =>
      Field(if |read| == |oids| then read[k] else Positional(k), oids[k]))
  }

  function Positional(k: nat): string { "column" + Decimal.ToDecimal(k + 1) }

  method ReturningFields<D>(server: Server<D>, lens: Lens, sql: string, oids: seq<int>, id: TxId)
    returns (fields: seq<Field>)
    requires server.Valid() && id in server.txs
    modifies server
    ensures server.Valid() && Inner(old(server.log), server.log, id) && Touched(old(server.txs), server.txs, id)
    ensures fields == FieldsOf(NamesRead(lens, sql, server.log, |old(server.log)|, server.answer), oids)
  {
    var names: seq<string> := [];
    var items := lens.returning(sql);
    if items.Some? {
      names := ExpandReturning(server, sql, items.value, id);
    }
    if |names| != |oids| {
      names := seq(|oids|, (k: nat) => Positional(k));
    }
    fields := seq(|oids|, k requires 0 <= k < |oids| => Field(names[k], oids[k]));
  }

  /** What `probe_inner` sends, in order, from request `at` on: the PREPARE; if it
      succeeded, the metadata query; and for a statement that reads and returns columns,
      the shape query with the types found. */
  ghost predicate ProbeSteps(log: seq<Request>, at: nat, lens: Lens, answer: nat -> Outcome, sql: string,
      name: string) {
    && at < |log| && log[at].Sent? && log[at].stmt == Prepare(name, sql)
    && (|log| > at + 1 ==> log[at].ok && log[at + 1].Sent? && log[at + 1].stmt == MetadataStmt(name))
    && (|log| > at + 2 ==> log[at + 1].ok && lens.metadata(answer(at + 1)).Some?)
    && (|log| > at + 2 ==> lens.metadata(answer(at + 1)).value.1 != [])
    && (|log| > at + 2 && !ModifiesData(sql) ==>
          && |log| == at + 3 && log[at + 2].Sent?
          && log[at + 2].stmt == Query(ShapeQuery(sql, lens.metadata(answer(at + 1)).value.0)))
  }

  /** The shape a probe that succeeded reports: the types the server inferred, and a
      column for each result type, with what the shape query said of it. */
  ghost predicate ShapeIs(r: Shape, log: seq<Request>, at: nat, lens: Lens, answer: nat -> Outcome, sql: string) {
    && |log| >= at + 2
    && lens.metadata(answer(at + 1)).Some?
    && var (types, oids) := lens.metadata(answer(at + 1)).value;
       && r.paramTypes == types
       && (oids == [] ==> r.fields == [])
       && (oids != [] && ModifiesData(sql) ==> r.fields == FieldsOf(NamesRead(lens, sql, log, at + 2, answer), oids))
       && (oids != [] && !ModifiesData(sql) ==>
             answer(at + 2).Rows? && r.fields == lens.fields(answer(at + 2).columns))
  }

  /** The source's `probe_inner`. */
  method ProbeInner<D>(server: Server<D>, lens: Lens, sql: string, suffix: string, id: TxId) returns (r: Option<Shape>)
    requires server.Valid() && id in server.txs && ValidUtf8(sql)
    modifies server
    ensures server.Valid() && Inner(old(server.log), server.log, id) && Touched(old(server.txs), server.txs, id)
    ensures ProbeSteps(server.log, |old(server.log)|, lens, server.answer, sql, "dapi_ps_" + suffix)
    ensures r.Some? ==> ShapeIs(r.value, server.log, |old(server.log)|, lens, server.answer, sql)
  {
    hide ModifiesData, ShapeQuery, ValidUtf8, NamesRead, FieldsOf;
    var name := "dapi_ps_" + suffix;
    var prepared := Ask(server, id, Prepare(name, sql));
    if prepared.None? {
      return None;
    }
    var metadata := ReadPreparedMetadata(server, lens, name, id);
    if metadata.None? {
      return None;
    }
    var (types, oids) := metadata.value;
    if oids == [] {
      return Some(Shape(types, []));
    }
    var writes := ModifiesDataMethod(sql);
    if writes {
      var fields := ReturningFields(server, lens, sql, oids, id);
      return Some(Shape(types, fields));
    }
    var fields := SelectFields(server, lens, sql, types, Some(id));
    return if fields.None? then None else Some(Shape(types, fields.value));
  }

  // -------------------------------------------------------------------- the probe

  datatype Cleanup = OwnedTransaction | AtSavepoint(name: string)

  /** What a probe in the caller's transaction sent, and what it left there: exactly when
      nothing, and what else when the cleanup was not reported done. */
  ghost predicate Borrowed<D>(before: seq<Request>, after: seq<Request>,
      was: map<TxId, Tx<D>>, now: map<TxId, Tx<D>>, id: TxId, name: string, fate: nat -> Fate<D>)
  {
    && |before| < |after| && before <= after
    && (forall k :: |before| <= k < |after| ==> after[k].Sent? && after[k].tx == Some(id))
    && id in was && id in now && now == was[id := now[id]]
    && after[|before|].stmt == Savepoint(name)
    && var last := |after| - 1;
       if !after[|before|].ok then
         && last == |before|
         && (Restored(was[id], now[id]) <==> was[id].aborted || fate(last).Unsent?)
       else
         last > |before| && Ended(was[id], now[id], after[last], name, fate(last))
  }

  /** How a cleanup ends: with the release, or with a rollback that was not reported done. */
  predicate Ended<D(==)>(was: Tx<D>, now: Tx<D>, last: Request, name: string, fate: Fate<D>) {
    && last.Sent?
    && (if last.stmt.Release? then last.stmt == Release(name) && Released(was, now, name, last.ok, fate)
        else last.stmt == RollbackTo(name) && !last.ok && Stuck(was, now, name, fate))
  }

  /** After the rollback was reported done: the transaction is as it was exactly if the
      release was served; in any case its data is, and it is aborted only if the server
      refused the release. */
  predicate Released<D(==)>(was: Tx<D>, now: Tx<D>, name: string, ok: bool, fate: Fate<D>) {
    && !was.aborted
    && (Restored(was, now) <==> ok || fate.Unheard?)
    && now.data == was.data && was.prepared <= now.prepared
    && (now.aborted <==> !ok && fate.Refused?)
    && now.savepoints == (if ok || fate.Unheard? then was.savepoints else was.savepoints + [Mark(name, was.data)])
  }

  /** After the rollback was not reported done: the probe's savepoint is still there, and
      the data is back if the request was served after all. */
  predicate Stuck<D(==)>(was: Tx<D>, now: Tx<D>, name: string, fate: Fate<D>) {
    && !was.aborted
    && now.savepoints == was.savepoints + [Mark(name, was.data)]
    && was.prepared <= now.prepared
    && (fate.Unheard? ==> now.data == was.data && !now.aborted)
    && (fate.Refused? ==> now.aborted)
  }

  /** What a probe in a transaction of its own sent: everything in that transaction, and
      last of all a request to roll it back. */
  ghost predicate Owned(before: seq<Request>, after: seq<Request>, id: TxId) {
    && |after| >= |before| + 2
    && before + [Opened(Some(id))] <= after
    && (forall k :: |before| < k < |after| - 1 ==> after[k].Sent? && after[k].tx == Some(id) && IsInner(after[k].stmt))
    && after[|after| - 1] == RolledBack(id)
  }

  /** The log as it was when the probe's own steps were done, before its cleanup. */
  function Probed(after: seq<Request>): seq<Request> {
    var n := |after|;
    if n >= 2 && after[n - 1].Sent? && after[n - 1].stmt.Release? then after[..n - 2]
    else if n >= 1 then after[..n - 1] else []
  }

  /** What the probe's steps were, and the shape it made of the answers, if it got that
      far. */
  ghost predicate Worked(before: seq<Request>, after: seq<Request>, lens: Lens, answer: nat -> Outcome, sql: string,
      suffix: string, r: Option<Shape>)
  {
    var at := |before| + 1;
    if |after| <= at then r.None?
    else
      && ProbeSteps(Probed(after), at, lens, answer, sql, "dapi_ps_" + suffix)
      && (r.Some? ==> ShapeIs(r.value, Probed(after), at, lens, answer, sql))
  }

  function ShapeOf(r: Option<(Shape, bool)>): Option<Shape> { if r.None? then None else Some(r.value.0) }

  /** The source's `run_probe`, with `begin_probe` and `end_probe`. */
  method RunProbe<D>(server: Server<D>, lens: Lens, slot: Option<TxId>, sql: string, suffix: string)
    returns (r: Option<(Shape, bool)>)
    requires server.Valid() && (slot.Some? ==> slot.value in server.txs) && ValidUtf8(sql)
    modifies server
    ensures server.Valid()
    ensures r.Some? ==> r.value.1 == slot.None?
    ensures Worked(old(server.log), server.log, lens, server.answer, sql, suffix, ShapeOf(r))
    ensures slot.Some? ==>
      Borrowed(old(server.log), server.log, old(server.txs), server.txs, slot.value, "dapi_probe_" + suffix,
          server.fate)
    ensures slot.None? ==> server.txs == old(server.txs)
    ensures slot.None? ==>
      || (r.None? && server.log == old(server.log) + [Opened(None)])
      || exists id :: Owned(old(server.log), server.log, id)
  {
    if slot.Some? {
      var shape := ProbeBorrowed(server, lens, slot.value, sql, suffix);
      return if shape.None? then None else Some((shape.value, false));
    }
    var begun := server.Begin();
    if begun.None? {
      return None;
    }
    var id := begun.value;
    var shape := ProbeInner(server, lens, sql, suffix, id);
    ghost var steps := server.log;
    var ok := server.Rollback(id);
    assert Probed(server.log) == steps;
    hide ProbeSteps, ShapeIs;
    assert Owned(old(server.log), server.log, id);
    return if shape.None? then None else Some((shape.value, true));
  }

  method ProbeBorrowed<D>(server: Server<D>, lens: Lens, id: TxId, sql: string, suffix: string)
    returns (r: Option<Shape>)
    requires server.Valid() && id in server.txs && ValidUtf8(sql)
    modifies server
    ensures server.Valid()
    ensures Borrowed(old(server.log), server.log, old(server.txs), server.txs, id, "dapi_probe_" + suffix, server.fate)
    ensures Worked(old(server.log), server.log, lens, server.answer, sql, suffix, r)
  {
    hide Called, Restored, Ended, Kept, ProbeSteps, ShapeIs;
    var name := "dapi_probe_" + suffix;
    ghost var before, at := server.txs[id], |server.log|;
    var saved := server.Execute(id, Savepoint(name));
    if saved.None? {
      FailedSavepoint(before, name, server.fate(at));
      return None;
    }
    r := ProbeInner(server, lens, sql, suffix, id);
    ghost var steps := server.log;
    EndProbe(server, id, name, before, server.fate(at));
    assert Probed(server.log) == steps;
  }

  /** `end_probe` for a probe behind a savepoint. */
  method EndProbe<D>(server: Server<D>, id: TxId, name: string, ghost was: Tx<D>, ghost set1: Fate<D>)
    requires server.Valid() && id in server.txs
    requires Called(was, Savepoint(name), set1).1
    requires Kept(Called(was, Savepoint(name), set1).0, server.txs[id])
    modifies server
    ensures server.Valid() && |old(server.log)| < |server.log| && old(server.log) <= server.log
    ensures Probed(server.log) == old(server.log)
    ensures forall k :: |old(server.log)| <= k < |server.log| ==> server.log[k].Sent? && server.log[k].tx == Some(id)
    ensures id in server.txs && server.txs == old(server.txs)[id := server.txs[id]]
    ensures Ended(was, server.txs[id], server.log[|server.log| - 1], name, server.fate(|server.log| - 1))
  {
    hide Called, Restored, Released, Stuck, Kept;
    ghost var inside, at := server.txs[id], |server.log|;
    var rolled := server.Execute(id, RollbackTo(name));
    if rolled.Some? {
      RollbackRestoresData(was, name, inside, set1, server.fate(at));
      ReleaseLeaves(was, server.txs[id], name, server.fate(at + 1));
      var released := server.Execute(id, Release(name));
    } else {
      RollbackUnreported(was, name, inside, set1, server.fate(at));
    }
  }

  /** What a release leaves of a transaction that was rolled back to the probe's savepoint. */
  lemma ReleaseLeaves<D>(was: Tx<D>, rolled: Tx<D>, name: string, fate: Fate<D>)
    requires !was.aborted && !rolled.aborted && rolled.data == was.data && was.prepared <= rolled.prepared
    requires rolled.savepoints == was.savepoints + [Mark(name, was.data)]
    ensures Released(was, Called(rolled, Release(name), fate).0, name, Called(rolled, Release(name), fate).1, fate)
  {
    FindPushed(was.savepoints, Mark(name, was.data));
    assert |rolled.savepoints| == |was.savepoints| + 1;
  }

  lemma RollbackUnreported<D>(was: Tx<D>, name: string, inside: Tx<D>, set1: Fate<D>, fate: Fate<D>)
    requires Called(was, Savepoint(name), set1).1
    requires Kept(Called(was, Savepoint(name), set1).0, inside)
    requires !Called(inside, RollbackTo(name), fate).1
    ensures Stuck(was, Called(inside, RollbackTo(name), fate).0, name, fate)
  {
    FindPushed(was.savepoints, Mark(name, was.data));
  }

  // --------------------------------------------------------------- describing at all

  /** The conditions on the text for one call to be enough. */
  ghost predicate StandsAlone(sql: string) {
    && ParamCount(sql) == 0
    && !ModifiesData(sql)
    && LeadingWords(sql, 1) != [] && LeadingWords(sql, 1)[0] in WRAPPABLE
  }

  /** One call is enough exactly for a text without placeholders that writes nothing and
      opens with one of four words. */
  lemma AloneExactly(sql: string)
    ensures StandsAlone(sql) <==>
      && Indexes(Lex(sql)) == []
      && !ModifiesData(sql)
      && |LeadingWords(sql, 1)| > 0
      && (LeadingWords(sql, 1)[0] == "SELECT" || LeadingWords(sql, 1)[0] == "WITH" ||
          LeadingWords(sql, 1)[0] == "VALUES" || LeadingWords(sql, 1)[0] == "TABLE")
  {
    hide Lex, ModifiesData, LeadingWords, Indexes;
    IndexesBound(Lex(sql));
    if ParamCount(sql) == 0 && Indexes(Lex(sql)) != [] {
      assert Indexes(Lex(sql))[0] in Indexes(Lex(sql));
      assert false;
    }
  }

  method ShapeQueryStandsAlone(sql: string) returns (r: bool)
    requires ValidUtf8(sql)
    ensures r == StandsAlone(sql)
  {
    var rewritten := RewritePlaceholdersWithCasts(sql, []);
    if rewritten.paramCount != 0 {
      return false;
    }
    var writes := ModifiesDataMethod(sql);
    if writes {
      return false;
    }
    var words := LeadingWordsMethod(sql, 1);
    return words != [] && words[0] in WRAPPABLE;
  }

  /** The source's `describe_statement`. A shape is shared between connections exactly
      when the caller had no transaction open; one the cache knows costs no request;
      and a shape query that stands alone is a single request outside any transaction. */
  method DescribeStatement<D>(
      server: Server<D>, shapes: SessionShapes<Shape>, lens: Lens, slot: Option<TxId>, sql: string, suffix: string)
    returns (r: Option<Shape>)
    requires server.Valid() && (slot.Some? ==> slot.value in server.txs) && ValidUtf8(sql)
    requires shapes.Valid()
    modifies server, shapes.describeCache, shapes.shapes.entries
    ensures server.Valid() && shapes.Valid()
    ensures var known := Answer(old(shapes.View()), shapes.shapes.shared, sql);
      known.Some? ==> r == known && server.log == old(server.log) && server.txs == old(server.txs)
    ensures var looked := LookUp(old(shapes.View()), shapes.shapes.shared, sql);
      shapes.View() ==
        if Answer(old(shapes.View()), shapes.shapes.shared, sql).None? && r.Some?
        then Remember(looked, shapes.shapes.shared, sql, r.value, slot.None?) else looked
    ensures Answer(old(shapes.View()), shapes.shapes.shared, sql).None? ==>
      if slot.None? && StandsAlone(sql) then
        r.Some? ==>
          && server.answer(|old(server.log)|).Rows?
          && r.value == Shape([], lens.fields(server.answer(|old(server.log)|).columns))
      else Worked(old(server.log), server.log, lens, server.answer, sql, suffix, r)
    ensures Answer(old(shapes.View()), shapes.shapes.shared, sql).None? ==>
      if slot.Some? then
        Borrowed(old(server.log), server.log, old(server.txs), server.txs, slot.value, "dapi_probe_" + suffix,
            server.fate)
      else
        && server.txs == old(server.txs)
        && if StandsAlone(sql) then OneSent(old(server.log), server.log, None, Query(ShapeQuery(sql, [])))
           else server.log == old(server.log) + [Opened(None)] || exists id :: Owned(old(server.log), server.log, id)
  {
    var cached := shapes.CachedShape(sql);
    if cached.Some? {
      return cached;
    }
    var alone := ShapeQueryStandsAlone(sql);
    if alone && slot.None? {
      var fields := SelectFields(server, lens, sql, [], None);
      if fields.None? {
        return None;
      }
      r := Some(Shape([], fields.value));
      shapes.CacheShape(sql, r.value, true);
    } else {
      var probed := RunProbe(server, lens, slot, sql, suffix);
      if probed.None? {
        return None;
      }
      r := Some(probed.value.0);
      shapes.CacheShape(sql, probed.value.0, probed.value.1);
    }
  }
}
