/**
  The Data API as the proxy sees it: every call is logged, and an oracle decides
  each reply. Results that hold for every oracle hold for every pattern of
  successes and failures (src/dataapi.rs:66-179).
*/
module DataApi {
  import opened Wrappers

  datatype Column = Column(alias: Option<string>, name: Option<string>, typeName: Option<string>)

  datatype Outcome =
    | Rows(columns: seq<Column>, records: seq<seq<Option<string>>>)
    | Affected(count: int)

  datatype ErrorInfo = ErrorInfo(code: string, message: string)

  /** A bound parameter: `p1`, `p2`, and so on, and its value, or NULL. */
  datatype Param = Param(name: string, value: Option<string>)

  /** A transaction is named by the place in the log of the call that opened it, so
      no two have the same name. */
  type TxId = nat

  datatype Call =
    | Execute(sql: string, params: seq<Param>, tx: Option<TxId>)
    | BeginTx
    | CommitTx(id: TxId)
    | RollbackTx(id: TxId)

  type Reply = Result<Outcome, ErrorInfo>

  type Oracle = nat -> Reply

  class DataApi {
    const oracle: Oracle
    var log: seq<Call>

    constructor (oracle: Oracle)
      ensures this.oracle == oracle && log == []
    {
      this.oracle := oracle;
      log := [];
    }

    method ExecuteStatement(sql: string, params: seq<Param>, tx: Option<TxId>) returns (r: Reply)
      modifies this
      ensures log == old(log) + [Execute(sql, params, tx)]
      ensures r == oracle(|old(log)|)
    {
      r := oracle(|log|);
      log := log + [Execute(sql, params, tx)];
    }

    method BeginTransaction() returns (r: Result<TxId, ErrorInfo>)
      modifies this
      ensures log == old(log) + [BeginTx]
      ensures r == match oracle(|old(log)|)
                   case Ok(_) => Ok(|old(log)|)
                   case Err(e) => Err(e)
    {
      match oracle(|log|) {
        case Ok(_) => r := Ok(|log|);
        case Err(e) => r := Err(e);
      }
      log := log + [BeginTx];
    }

    method CommitTransaction(id: TxId) returns (r: Option<ErrorInfo>)
      modifies this
      ensures log == old(log) + [CommitTx(id)]
      ensures r == Failing(oracle(|old(log)|))
    {
      r := Failing(oracle(|log|));
      log := log + [CommitTx(id)];
    }

    method RollbackTransaction(id: TxId) returns (r: Option<ErrorInfo>)
      modifies this
      ensures log == old(log) + [RollbackTx(id)]
      ensures r == Failing(oracle(|old(log)|))
    {
      r := Failing(oracle(|log|));
      log := log + [RollbackTx(id)];
    }
  }

  /** The error of a call whose outcome does not matter. */
  function Failing(r: Reply): Option<ErrorInfo> {
    match r
    case Ok(_) => None
    case Err(e) => Some(e)
  }

  /** Requests to end transaction `id`. */
  function Ends(log: seq<Call>, id: TxId): nat {
    if log == [] then 0
    else Ends(log[..|log| - 1], id) + (if log[|log| - 1] in {CommitTx(id), RollbackTx(id)} then 1 else 0)
  }

  lemma {:induction false} EndsSum(a: seq<Call>, b: seq<Call>, id: TxId)
    ensures Ends(a + b, id) == Ends(a, id) + Ends(b, id)
  {
    if b == [] {
      assert a + b == a;
    } else {
      EndsSum(a, b[..|b| - 1], id);
      assert (a + b)[..|a + b| - 1] == a + b[..|b| - 1];
    }
  }
}
