/**
  When a statement is run again, and as what, spelled out (src/handlers.rs:185-230,
  src/handlers.rs:317-379, src/handlers.rs:745-755, src/types.rs:43-154).
*/
module Retries {
  import opened Wrappers
  import opened DataApi
  import opened SqlTokens
  import opened SqlWords
  import opened Types
  import opened Fallback
  import Seqs

  // ------------------------------------------------------------------ which errors

  /** `part` stands in `s` at `i`. */
  predicate StandsAt(s: string, part: string, i: nat) { i + |part| <= |s| && s[i..i + |part|] == part }

  lemma {:induction false} ContainsExactly(s: string, part: string)
    ensures Contains(s, part) <==> exists i: nat :: StandsAt(s, part, i)
    decreases |s|
  {
    assert StandsAt(s, part, 0) <==> part <= s;
    if s != "" {
      ContainsExactly(s[1..], part);
      forall i: nat ensures StandsAt(s[1..], part, i) == StandsAt(s, part, i + 1) {
        if i + 1 + |part| <= |s| {
          assert s[1..][i..i + |part|] == s[i + 1..i + 1 + |part|];
        }
      }
      if i: nat :| StandsAt(s, part, i) {
        assert i > 0 ==> StandsAt(s[1..], part, i - 1);
      }
    }
  }

  /** The Data API will not return a type. */
  ghost predicate WillNotReturn(e: ErrorInfo) {
    e.code == "0A000" && exists i: nat :: StandsAt(e.message, "unsupported data type", i)
  }

  /** The Data API failed without saying why. */
  ghost predicate FailedInside(e: ErrorInfo) {
    e.code == "XX000" && exists i: nat :: StandsAt(e.message, "InternalFailure", i)
  }

  lemma ScopeExactly(reply: Reply)
    ensures ScopeOf(reply) ==
      if reply.Err? && WillNotReturn(reply.error) then Some(Unreturnable)
      else if reply.Err? && FailedInside(reply.error) then Some(AlsoTemporal)
      else None
  {
    if reply.Err? {
      ContainsExactly(reply.error.message, "unsupported data type");
      ContainsExactly(reply.error.message, "InternalFailure");
    }
    hide Contains, StandsAt;
  }

  /** A query that writes nothing. */
  ghost predicate ReadsOnly(sql: string) {
    && !ModifiesData(sql)
    && |LeadingWords(sql, 1)| > 0
    && var word := LeadingWords(sql, 1)[0];
       word == "SELECT" || word == "WITH" || word == "TABLE" || word == "VALUES"
  }

  /** A statement goes out a second time exactly if it only reads and its first reply is an
      error of one of two kinds; and then as the zero-row wrap around itself. */
  lemma RetriedExactly(sql: string, oracle: Oracle, at: nat)
    ensures var sent := Attempted(sql, oracle, at).sent;
      && |sent| > 0 && sent[0] == sql
      && (|sent| > 1 <==>
            ReadsOnly(sql) && oracle(at).Err? && (WillNotReturn(oracle(at).error) || FailedInside(oracle(at).error)))
      && (|sent| > 1 ==> sent[1] == "SELECT * FROM (" + sql + ") AS __dapi_cast LIMIT 0")
  {
    hide ModifiesData, LeadingWords, WillNotReturn, FailedInside, Retry;
    ScopeExactly(oracle(at));
    WriteSentOnce(sql, oracle, at);
  }

  // ------------------------------------------------------------------ which columns

  /** The types the proxy can return. */
  const RETURNED: set<string> := {
    "bool", "int2", "int4", "int8", "float4", "float8", "numeric", "text", "varchar", "bpchar",
    "name", "oid", "date", "time", "timestamp", "timestamptz", "uuid", "json", "jsonb", "bytea"
  }

  predicate SomeMoment(name: string) { name == "date" || name == "timestamp" || name == "timestamptz" }

  /** What a column of this type is cast to in the retry. */
  lemma CastExactly(name: string, scope: CastScope)
    requires name == "" || name[0] != '_'
    ensures NeedsTextCast(name, scope) ==
      if name !in RETURNED + {"smallserial", "serial", "bigserial"} || (scope.AlsoTemporal? && SomeMoment(name))
      then Some("text") else None
  {
  }

  lemma ArrayCastExactly(elem: string, scope: CastScope)
    ensures NeedsTextCast("_" + elem, scope) ==
      if elem !in RETURNED || (scope.AlsoTemporal? && SomeMoment(elem)) then Some("text[]") else None
  {
    assert ("_" + elem)[1..] == elem;
  }

  /** The type a column is advertised as. */
  lemma AdvertisedExactly(name: string)
    requires name == "" || name[0] != '_'
    ensures MapType(name) == Scalar(
      if name == "smallserial" then "int2" else if name == "serial" then "int4"
      else if name == "bigserial" then "int8" else if name in RETURNED then name else "text")
  {
  }

  lemma ArrayAdvertisedExactly(elem: string)
    ensures MapType("_" + elem) == ArrayOf(if elem in RETURNED then elem else "text")
  {
    assert ("_" + elem)[1..] == elem;
  }

  // --------------------------------------------------------------------- as what

  /** The name a column is selected by: its label, or else its name. */
  function SelectedBy(c: Column): Option<string> {
    match c.alias
    case Some(alias) => Some(alias)
    case None => c.name
  }

  /** One entry of the select list: the quoted name, and a cast to `cast` under that name. */
  function Entry(name: string, cast: Option<string>): string {
    if cast.None? then "\"" + Double(name) + "\""
    else "\"" + Double(name) + "\"::" + cast.value + " AS \"" + Double(name) + "\""
  }

  /** The columns can be selected by name: there are some, each has a name, and no two the
      same. */
  ghost predicate ByName(columns: seq<Column>) {
    && |columns| > 0
    && (forall i :: 0 <= i < |columns| ==> SelectedBy(columns[i]).Some? && SelectedBy(columns[i]).value != "")
    && forall i, j :: 0 <= i < j < |columns| ==> SelectedBy(columns[i]) != SelectedBy(columns[j])
  }

  function CastFor(c: Column, scope: CastScope): Option<string> {
    NeedsTextCast(if c.typeName.Some? then c.typeName.value else "text", scope)
  }

  /** There is a retry exactly if the shape query answered with rows whose columns can be
      selected by name and of which one needs a cast. */
  lemma RetryExactly(sql: string, shape: Reply, scope: CastScope)
    ensures Retry(sql, shape, scope).Some? <==>
      && shape.Ok? && shape.value.Rows? && ByName(shape.value.columns)
      && exists i :: 0 <= i < |shape.value.columns| && CastFor(shape.value.columns[i], scope).Some?
  {
    hide NeedsTextCast, CastSql;
    if shape.Ok? && shape.value.Rows? {
      var columns := shape.value.columns;
      forall i | 0 <= i < |columns| ensures SelectedBy(columns[i]) == NameOf(columns[i]) {
      }
      if ByName(columns) {
        assert Selectable(columns);
        var items := Items(columns, scope);
        forall i | 0 <= i < |columns| ensures items[i].cast == CastFor(columns[i], scope) {
        }
        if i :| 0 <= i < |columns| && CastFor(columns[i], scope).Some? {
          assert items[i].cast.Some?;
        }
      }
    }
  }

  /** It selects every column of the statement by its name, with the casts that the first
      error calls for. */
  lemma RetryText(sql: string, shape: Reply, scope: CastScope) returns (list: seq<string>)
    requires Retry(sql, shape, scope).Some?
    ensures shape.Ok? && shape.value.Rows? && |list| == |shape.value.columns|
    ensures forall i :: 0 <= i < |list| ==>
      && SelectedBy(shape.value.columns[i]).Some?
      && list[i] == Entry(SelectedBy(shape.value.columns[i]).value, CastFor(shape.value.columns[i], scope))
    ensures Retry(sql, shape, scope).value ==
      "SELECT " + Seqs.JoinWith(list, ", ") + " FROM (" + sql + ") AS __dapi_cast"
  {
    hide NeedsTextCast, Double;
    var items := Items(shape.value.columns, scope);
    list := Seqs.Map(ItemText, items);
    forall i | 0 <= i < |items| ensures list[i] == Entry(items[i].name, items[i].cast) {
      EntryIs(items[i]);
    }
  }

  lemma EntryIs(it: Item)
    ensures ItemText(it) == Entry(it.name, it.cast)
  {
    hide Double;
    if it.cast.Some? {
      var q := "\"" + Double(it.name) + "\"";
      assert q + "::" == "\"" + Double(it.name) + "\"::";
      var head := "\"" + Double(it.name) + "\"::" + it.cast.value;
      assert head + " AS " + q == head + " AS \"" + Double(it.name) + "\"";
    }
  }
}
