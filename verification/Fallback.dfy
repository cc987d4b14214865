/**
  `execute_with_fallback` and `cast_fallback_sql`, src/handlers.rs:185-230 and
  src/handlers.rs:317-379: a query the Data API would not return is run once more
  with the offending columns cast to text.
*/
module Fallback {
  import opened Wrappers
  import opened DataApi
  import opened SqlLexer
  import opened SqlRewrite
  import opened SqlTokens
  import opened SqlWords
  import opened SqlWrap
  import opened SqlWrites
  import opened Transactions
  import opened Types
  import Seqs

  const QUERY_WORDS: set<string> := {"SELECT", "WITH", "TABLE", "VALUES"}

  const WRAP_PREFIX := "SELECT * FROM ("
  const SHAPE_SUFFIX := ") AS __dapi_cast LIMIT 0"
  const CAST_SUFFIX := ") AS __dapi_cast"

  // ------------------------------------------------------------------ which errors

  predicate Contains(s: string, part: string) { part <= s || (s != "" && Contains(s[1..], part)) }

  predicate IsUnreturnableType(e: ErrorInfo) { e.code == "0A000" && Contains(e.message, "unsupported data type") }

  predicate IsInternalFailure(e: ErrorInfo) { e.code == "XX000" && Contains(e.message, "InternalFailure") }

  /** What to give up on after this reply, if another try could help. */
  function ScopeOf(reply: Reply): Option<CastScope> {
    match reply
    case Ok(_) => None
    case Err(e) =>
      if IsUnreturnableType(e) then Some(Unreturnable)
      else if IsInternalFailure(e) then Some(AlsoTemporal)
      else None
  }

  /** Only what reads may be run again, and only a query can be wrapped. */
  ghost predicate MayRetry(sql: string) {
    && !ModifiesData(sql)
    && LeadingWords(sql, 1) != [] && LeadingWords(sql, 1)[0] in QUERY_WORDS
  }

  // --------------------------------------------------------------- the select list

  /** A column of the retry: its name, and the cast it gets. */
  datatype Item = Item(name: string, cast: Option<string>)

  function NameOf(c: Column): Option<string> { if c.alias.Some? then c.alias else c.name }

  function TypeNameOf(c: Column): string { if c.typeName.Some? then c.typeName.value else "text" }

  function ItemOf(c: Column, scope: CastScope): Item
    requires NameOf(c).Some?
  {
    Item(NameOf(c).value, NeedsTextCast(TypeNameOf(c), scope))
  }

  function ItemText(it: Item): string {
    var q := Quote(it.name);
    match it.cast
    case None => q
    case Some(c) => q + "::" + c + " AS " + q
  }

  predicate Named(columns: seq<Column>) {
    forall i :: 0 <= i < |columns| ==> NameOf(columns[i]).Some? && NameOf(columns[i]).value != ""
  }

  /** Every column can be selected by name from the subquery: it has a name, and no
      other column has the same one. */
  predicate Selectable(columns: seq<Column>) {
    && columns != [] && Named(columns)
    && forall i, j :: 0 <= i < j < |columns| ==> NameOf(columns[i]) != NameOf(columns[j])
  }

  function Items(columns: seq<Column>, scope: CastScope): (items: seq<Item>)
    requires Named(columns)
    ensures |items| == |columns|
    ensures forall i :: 0 <= i < |items| ==> items[i] == ItemOf(columns[i], scope)
  {
    seq(|columns|, i requires 0 <= i < |columns| => ItemOf(columns[i], scope))
  }

  predicate AnyCast(items: seq<Item>) { exists i :: 0 <= i < |items| && items[i].cast.Some? }

  function ListText(items: seq<Item>): string { Seqs.JoinWith(Seqs.Map(ItemText, items), ", ") }

  function ShapeSql(sql: string): string { WRAP_PREFIX + sql + SHAPE_SUFFIX }

  function CastSql(sql: string, items: seq<Item>): string {
    "SELECT " + ListText(items) + " FROM (" + sql + CAST_SUFFIX
  }

  /** The retry that the reply to the shape query allows. */
  function Retry(sql: string, shape: Reply, scope: CastScope): Option<string> {
    if shape.Ok? && shape.value.Rows? && Selectable(shape.value.columns)
      && AnyCast(Items(shape.value.columns, scope))
    then Some(CastSql(sql, Items(shape.value.columns, scope)))
    else None
  }

  // ------------------------------------------------------------- the calls in a row

  datatype Attempt = Attempt(sent: seq<string>, reply: Reply)

  /** What is sent for `sql` when the log holds `at` calls, and what comes of it. */
  ghost function Attempted(sql: string, oracle: Oracle, at: nat): Attempt {
    var first := oracle(at);
    var scope := ScopeOf(first);
    if scope.None? || !MayRetry(sql) then Attempt([sql], first)
    else
      match Retry(sql, oracle(at + 1), scope.value)
      case None => Attempt([sql, ShapeSql(sql)], first)
      case Some(retry) => Attempt([sql, ShapeSql(sql), retry], if oracle(at + 2).Ok? then oracle(at + 2) else first)
  }

  /** A statement with a write keyword in code, or that does not open as a query, is
      sent exactly once; any other goes out a second time only behind an error that
      a cast could cure, and then only inside the zero-row wrap and the cast wrap. */
  lemma WriteSentOnce(sql: string, oracle: Oracle, at: nat)
    ensures var sent := Attempted(sql, oracle, at).sent;
      && 1 <= |sent| <= 3 && sent[0] == sql
      && (|sent| > 1 <==> MayRetry(sql) && ScopeOf(oracle(at)).Some?)
      && (|sent| > 1 ==> sent[1] == ShapeSql(sql))
      && (|sent| > 2 ==> Retry(sql, oracle(at + 1), ScopeOf(oracle(at)).value) == Some(sent[2]))
  {
  }

  /** Which of the calls sent decides: the statement itself, or the cast wrap if it came
      to that. */
  function Decider(calls: nat): nat { if calls == 3 then 2 else 0 }

  /** An attempt fails exactly if the call that decides was answered with an error, and
      then reports the error of the statement itself; else it returns that call's answer. */
  lemma AttemptDecides(sql: string, oracle: Oracle, at: nat)
    ensures var a := Attempted(sql, oracle, at);
      && Decider(|a.sent|) < |a.sent|
      && a.reply == (if oracle(at + Decider(|a.sent|)).Err? then oracle(at) else oracle(at + Decider(|a.sent|)))
      && (a.reply.Err? <==> oracle(at + Decider(|a.sent|)).Err?)
  {
    hide MayRetry, Retry, ShapeSql, IsUnreturnableType, IsInternalFailure;
  }

  /** The narrow retry returns the same columns: every name and place, and the type
      that would have been advertised for it anyway. */
  lemma NarrowRetryKeepsColumns(columns: seq<Column>, i: nat)
    requires Named(columns) && i < |columns|
    ensures var it := Items(columns, Unreturnable)[i];
      && Some(it.name) == NameOf(columns[i])
      && MapType(CastName(TypeNameOf(columns[i]), it.cast)) == MapType(TypeNameOf(columns[i]))
  {
    CastKeepsType(TypeNameOf(columns[i]), Unreturnable);
  }

  // ------------------------------------------------------ how the retry is lexed

  /** The pieces one column of the list is meant to be. */
  function ItemPieces(it: Item): seq<Piece> {
    var q := Piece(DoubleQuoted, Quote(it.name));
    match it.cast
    case None => [q]
    case Some(c) => [q, Piece(Code, "::" + c + " AS "), q]
  }

  function ListPieces(items: seq<Item>): seq<Piece> {
    if items == [] then []
    else if |items| == 1 then ItemPieces(items[0])
    else ItemPieces(items[0]) + [Piece(Code, ", ")] + ListPieces(items[1..])
  }

  predicate PlainCast(it: Item) { it.cast.Some? ==> it.cast.value in {"text", "text[]"} }

  predicate NoQuote(u: string) { u == "" || u[0] != '"' }

  lemma CodeBeforeQuoted(code: string, u: string)
    requires InertText(code) && u != "" && u[0] == '"'
    ensures Lex(code + u) == [Piece(Code, code)] + Lex(u)
  {
    InertIsCode(code, u);
    LexHead(u);
  }

  lemma QuoteOpens(name: string, u: string)
    ensures Quote(name) + u != "" && (Quote(name) + u)[0] == '"'
  {
  }

  lemma ItemLexes(it: Item, u: string)
    requires PlainCast(it) && NoQuote(u)
    ensures Lex(ItemText(it) + u) == ItemPieces(it) + Lex(u)
  {
    hide Lex, Quote;
    var q := Quote(it.name);
    match it.cast {
      case None => QuoteLexes(it.name, u);
      case Some(c) =>
        var code := "::" + c + " AS ";
        assert ItemText(it) + u == q + (code + (q + u));
        QuoteLexes(it.name, code + (q + u));
        QuoteOpens(it.name, u);
        CodeBeforeQuoted(code, q + u);
        QuoteLexes(it.name, u);
    }
  }

  lemma ListOpens(items: seq<Item>, u: string)
    requires items != []
    ensures ListText(items) + u != "" && (ListText(items) + u)[0] == '"'
  {
  }

  lemma {:induction false} ListLexes(items: seq<Item>, u: string)
    requires items != [] && NoQuote(u)
    requires forall i :: 0 <= i < |items| ==> PlainCast(items[i])
    ensures Lex(ListText(items) + u) == ListPieces(items) + Lex(u)
  {
    hide Lex, ItemText, ItemPieces;
    if |items| == 1 {
      ItemLexes(items[0], u);
    } else {
      var rest := ListText(items[1..]) + u;
      assert Seqs.Map(ItemText, items)[1..] == Seqs.Map(ItemText, items[1..]);
      assert ListText(items) + u == ItemText(items[0]) + (", " + rest);
      ListLexes(items[1..], u);
      ItemLexes(items[0], ", " + rest);
      ListOpens(items[1..], u);
      CodeBeforeQuoted(", ", rest);
    }
  }

  /** The retry lexes as meant: the columns by quoted name with their casts, around
      the statement's own pieces. */
  lemma RetryLexes(sql: string, items: seq<Item>)
    requires items != []
    requires forall i :: 0 <= i < |items| ==> PlainCast(items[i])
    ensures Lex(CastSql(sql, items)) ==
      [Piece(Code, "SELECT ")] + ListPieces(items) + Prepend(Code, " FROM (", Extend(Lex(sql), CAST_SUFFIX))
  {
    hide Lex, ListText, ListPieces, Extend, Prepend;
    var u := " FROM (" + sql + CAST_SUFFIX;
    ListOpens(items, u);
    ListLexes(items, u);
    SelectLexes("SELECT ", ListText(items), ListPieces(items), " FROM (", sql, CAST_SUFFIX);
  }

  lemma SelectLexes(select: string, list: string, ps: seq<Piece>, from: string, sql: string, suffix: string)
    requires InertText(select) && InertText(from) && Closer(suffix)
    requires list + (from + sql + suffix) != "" && (list + (from + sql + suffix))[0] == '"'
    requires Lex(list + (from + sql + suffix)) == ps + Lex(from + sql + suffix)
    ensures Lex(select + list + from + sql + suffix) ==
      [Piece(Code, select)] + ps + Prepend(Code, from, Extend(Lex(sql), suffix))
  {
    hide Lex, Extend, Prepend;
    CodeBeforeQuoted(select, list + (from + sql + suffix));
    assert select + list + from + sql + suffix == select + (list + (from + sql + suffix));
    WrapLexes(from, sql, suffix);
  }

  // --------------------------------------------------------- nothing sent can write

  lemma ItemWritesNothing(it: Item)
    requires PlainCast(it)
    ensures !AnyWrite(ItemPieces(it))
  {
    if it.cast.Some? {
      NoWriteWithout("::" + it.cast.value + " AS ");
    }
  }

  lemma {:induction false} ListWritesNothing(items: seq<Item>)
    requires forall i :: 0 <= i < |items| ==> PlainCast(items[i])
    ensures !AnyWrite(ListPieces(items))
  {
    if items != [] {
      hide ItemPieces, CodeWords;
      ItemWritesNothing(items[0]);
      NoWriteWithout(", ");
      AnyWriteOne(Piece(Code, ", "));
      ListWritesNothing(items[1..]);
      AnyWriteConcat(ItemPieces(items[0]), [Piece(Code, ", ")]);
      AnyWriteConcat(ItemPieces(items[0]) + [Piece(Code, ", ")], ListPieces(items[1..]));
    }
  }

  lemma PrefixesHarmless()
    ensures MissesKeywords("SELECT * FROM ") && MissesKeywords("SELECT ") && MissesKeywords(" FROM ")
    ensures WRAP_PREFIX == "SELECT * FROM " + "(" && " FROM (" == " FROM " + "("
  {
  }

  lemma ShapeSuffixHarmless()
    ensures MissesKeywords(" AS __dapi_cast LIMIT 0")
    ensures SHAPE_SUFFIX == ")" + " AS __dapi_cast LIMIT 0"
  {
  }

  lemma CastSuffixHarmless()
    ensures MissesKeywords(" AS __dapi_cast")
    ensures CAST_SUFFIX == ")" + " AS __dapi_cast"
  {
  }

  lemma WrapTexts()
    ensures InertText(WRAP_PREFIX) && Closer(SHAPE_SUFFIX)
  {
  }

  /** The zero-row wrap holds a write keyword in code only if the statement does. */
  lemma ShapeWritesNothing(sql: string)
    ensures ModifiesData(ShapeSql(sql)) <==> ModifiesData(sql)
  {
    hide Lex, Extend, Prepend, CodeWords, MissesKeywords, InertText, Closer, HasWriteWord;
    PrefixesHarmless();
    ShapeSuffixHarmless();
    WrapTexts();
    WrapLexes(WRAP_PREFIX, sql, SHAPE_SUFFIX);
    WrapWritesNothing("SELECT * FROM ", sql, " AS __dapi_cast LIMIT 0");
  }

  /** And so does the retry. */
  lemma CastWritesNothing(sql: string, items: seq<Item>)
    requires items != []
    requires forall i :: 0 <= i < |items| ==> PlainCast(items[i])
    ensures ModifiesData(CastSql(sql, items)) <==> ModifiesData(sql)
  {
    hide Lex, Extend, Prepend, CodeWords, ListPieces, MissesKeywords, InertText, Closer;
    RetryLexes(sql, items);
    var select, ps := [Piece(Code, "SELECT ")], ListPieces(items);
    var wrapped := Prepend(Code, " FROM (", Extend(Lex(sql), CAST_SUFFIX));
    PrefixesHarmless();
    CastSuffixHarmless();
    NoWriteWithout("SELECT ");
    AnyWriteOne(Piece(Code, "SELECT "));
    ListWritesNothing(items);
    WrapWritesNothing(" FROM ", sql, " AS __dapi_cast");
    AnyWriteConcat(select, ps);
    AnyWriteConcat(select + ps, wrapped);
  }

  /** If any text sent holds a write keyword in code, it is the statement itself, and
      it is the only one sent. */
  lemma NothingElseWrites(sql: string, oracle: Oracle, at: nat, k: nat)
    requires k < |Attempted(sql, oracle, at).sent|
    ensures var sent := Attempted(sql, oracle, at).sent;
      ModifiesData(sent[k]) ==> sent == [sql] && ModifiesData(sql)
  {
    hide ModifiesData;
    var sent := Attempted(sql, oracle, at).sent;
    WriteSentOnce(sql, oracle, at);
    if k == 1 {
      ShapeWritesNothing(sql);
    } else if k == 2 {
      CastWritesNothing(sql, Items(oracle(at + 1).value.columns, ScopeOf(oracle(at)).value));
    }
  }

  // -------------------------------------------------------------------- the methods

  /** The loop of `cast_fallback_sql` stands at column `k`: `seen` holds the names so
      far, all different, and `list` their entries. */
  ghost predicate Listing(columns: seq<Column>, scope: CastScope, k: nat, seen: set<string>, list: seq<string>,
      anyCast: bool) {
    && k <= |columns| && |list| == k
    && (forall i :: 0 <= i < k ==>
          && NameOf(columns[i]).Some? && NameOf(columns[i]).value != "" && NameOf(columns[i]).value in seen
          && list[i] == ItemText(ItemOf(columns[i], scope)))
    && (forall name :: name in seen ==> exists i :: 0 <= i < k && NameOf(columns[i]) == Some(name))
    && (forall i, j :: 0 <= i < j < k ==> NameOf(columns[i]) != NameOf(columns[j]))
    && (anyCast <==> exists i :: 0 <= i < k && CastOf(columns[i], scope).Some?)
  }

  function CastOf(c: Column, scope: CastScope): Option<string> { NeedsTextCast(TypeNameOf(c), scope) }

  lemma ListNext(columns: seq<Column>, scope: CastScope, k: nat, seen: set<string>, list: seq<string>, anyCast: bool)
    requires Listing(columns, scope, k, seen, list, anyCast) && k < |columns|
    requires NameOf(columns[k]).Some?
    requires NameOf(columns[k]).value != "" && NameOf(columns[k]).value !in seen
    ensures Listing(columns, scope, k + 1, seen + {NameOf(columns[k]).value},
      list + [ItemText(ItemOf(columns[k], scope))], anyCast || CastOf(columns[k], scope).Some?)
  {
    hide ItemText, NeedsTextCast, NameOf, TypeNameOf;
    var name := NameOf(columns[k]).value;
    assert NameOf(columns[k]) == Some(name);
    if anyCast {
      var i :| 0 <= i < k && CastOf(columns[i], scope).Some?;
    }
  }

  lemma ListStops(columns: seq<Column>, scope: CastScope, k: nat, seen: set<string>, list: seq<string>, anyCast: bool)
    requires Listing(columns, scope, k, seen, list, anyCast) && k < |columns|
    requires NameOf(columns[k]).None? || NameOf(columns[k]).value == "" || NameOf(columns[k]).value in seen
    ensures !Selectable(columns)
  {
    if NameOf(columns[k]).Some? && NameOf(columns[k]).value in seen {
      var i :| 0 <= i < k && NameOf(columns[i]) == Some(NameOf(columns[k]).value);
    }
  }

  lemma ListEnds(columns: seq<Column>, scope: CastScope, seen: set<string>, list: seq<string>, anyCast: bool)
    requires Listing(columns, scope, |columns|, seen, list, anyCast) && columns != []
    ensures Selectable(columns)
    ensures list == Seqs.Map(ItemText, Items(columns, scope))
    ensures anyCast <==> AnyCast(Items(columns, scope))
  {
    var items := Items(columns, scope);
    forall i | 0 <= i < |items| ensures items[i].cast == CastOf(columns[i], scope) {
    }
  }

  /** The select list, unless a name is missing or taken twice or no cast is needed. */
  method SelectList(columns: seq<Column>, scope: CastScope) returns (r: Option<seq<string>>)
    ensures r == if Selectable(columns) && AnyCast(Items(columns, scope))
      then Some(Seqs.Map(ItemText, Items(columns, scope))) else None
  {
    if columns == [] {
      return None;
    }
    hide Listing, AnyCast, Selectable;
    var seen: set<string> := {};
    var list: seq<string> := [];
    var anyCast := false;
    ListStarts(columns, scope);
    for k := 0 to |columns|
      invariant Listing(columns, scope, k, seen, list, anyCast)
    {
      var name := NameOf(columns[k]);
      if name.None? || name.value == "" || name.value in seen {
        ListStops(columns, scope, k, seen, list, anyCast);
        return None;
      }
      ListNext(columns, scope, k, seen, list, anyCast);
      seen := seen + {name.value};
      var item := ItemOf(columns[k], scope);
      if item.cast.Some? {
        anyCast := true;
      }
      list := list + [ItemText(item)];
    }
    ListEnds(columns, scope, seen, list, anyCast);
    return if anyCast then Some(list) else None;
  }

  lemma ListStarts(columns: seq<Column>, scope: CastScope)
    ensures Listing(columns, scope, 0, {}, [], false)
  {
  }

  /** The source's `cast_fallback_sql`. */
  method CastFallbackSql(session: Session, sql: string, params: seq<Param>,
      scope: CastScope) returns (r: Option<string>)
    modifies session.api
    ensures !MayRetry(sql) ==> r == None && session.api.log == old(session.api.log)
    ensures MayRetry(sql) ==>
      && session.api.log == old(session.api.log) + [Execute(ShapeSql(sql), params, session.transaction)]
      && r == Retry(sql, session.api.oracle(|old(session.api.log)|), scope)
  {
    var writes := ModifiesDataMethod(sql);
    if writes {
      return None;
    }
    var words := LeadingWordsMethod(sql, 1);
    if words == [] || words[0] !in QUERY_WORDS {
      return None;
    }
    var shape := session.api.ExecuteStatement(ShapeSql(sql), params, session.transaction);
    if shape.Err? || !shape.value.Rows? {
      return None;
    }
    var list := SelectList(shape.value.columns, scope);
    match list {
      case None =>
        return None;
      case Some(entries) =>
        return Some("SELECT " + Seqs.JoinWith(entries, ", ") + " FROM (" + sql + CAST_SUFFIX);
    }
  }

  /** The source's `execute_with_fallback`, in the session's transaction. */
  method ExecuteWithFallback(session: Session, sql: string, params: seq<Param>) returns (r: Reply)
    modifies session, session.api
    ensures var a := Attempted(sql, session.api.oracle, |old(session.api.log)|);
      && r == a.reply
      && session.api.log == old(session.api.log) + Sends(a.sent, params, old(session.transaction))
    ensures session.transaction == old(session.transaction)
    ensures session.failed == (old(session.failed) || (r.Err? && session.transaction.Some?))
  {
    hide ShapeSql, MayRetry, IsUnreturnableType, IsInternalFailure, Retry, ModifiesData, LeadingWords;
    var tx := session.transaction;
    ghost var at := |session.api.log|;
    var first := session.api.ExecuteStatement(sql, params, tx);
    assert session.api.log == old(session.api.log) + Sends([sql], params, tx);
    var scope := ScopeOf(first);
    if first.Ok? {
      return first;
    }
    if scope.None? {
      session.MarkFailed();
      return first;
    }
    var rewritten := CastFallbackSql(session, sql, params, scope.value);
    assert MayRetry(sql) ==> session.api.log == old(session.api.log) + Sends([sql, ShapeSql(sql)], params, tx);
    match rewritten {
      case Some(retry) =>
        var second := session.api.ExecuteStatement(retry, params, tx);
        assert session.api.log == old(session.api.log) + Sends([sql, ShapeSql(sql), retry], params, tx);
        if second.Ok? {
          return second;
        }
        session.MarkFailed();
        return first;
      case None =>
        session.MarkFailed();
        return first;
    }
  }
}
