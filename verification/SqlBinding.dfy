/**
  Naming and binding parameters: the replacement texts of src/sql.rs:227-285 and
  the parameter list of src/handlers.rs:409-477.
*/
module SqlBinding {
  import opened Wrappers
  import opened SqlLexer
  import opened SqlRewrite
  import SqlSplit
  import Decimal

  function ParamName(n: nat): string { "p" + Decimal.ToDecimal(n) }

  /** `types.get(n - 1).and_then(Option::as_deref)` */
  function TypeFor(types: seq<Option<string>>, n: nat): Option<string> {
    if 1 <= n <= |types| then types[n - 1] else None
  }

  function CastReplacement(types: seq<Option<string>>): nat -> string {
    (n: nat) => match TypeFor(types, n)
         case Some(ty) => "CAST(:" + ParamName(n) + " AS " + ty + ")"
         case None => ":" + ParamName(n)
  }

  function NullReplacement(types: seq<Option<string>>): nat -> string {
    (n: nat) => match TypeFor(types, n)
         case Some(ty) => "NULL::" + ty
         case None => "NULL"
  }

  /** Type names that lex as plain code. */
  predicate PlainTypes(types: seq<Option<string>>) {
    forall i :: 0 <= i < |types| && types[i].Some? ==> PlainText(types[i].value)
  }

  predicate PlainText(t: string) {
    forall i :: 0 <= i < |t| ==> t[i] !in {'\'', '"', '$', '-', '/'}
  }

  lemma PlainConcat(a: string, b: string)
    ensures PlainText(a + b) <==> PlainText(a) && PlainText(b)
  {
    assert forall i :: 0 <= i < |a| ==> (a + b)[i] == a[i];
    assert forall i :: 0 <= i < |b| ==> (a + b)[|a| + i] == b[i];
  }

  lemma PlainName(n: nat)
    ensures PlainText(":" + ParamName(n))
  {
    assert PlainText(Decimal.ToDecimal(n));
    PlainConcat("p", Decimal.ToDecimal(n));
    PlainConcat(":", ParamName(n));
  }

  /** Casts to plainly named types, and NULLs of such types, are inert. */
  lemma PlainTypesAreInert(types: seq<Option<string>>)
    requires PlainTypes(types)
    ensures Inert(CastReplacement(types))
    ensures Inert(NullReplacement(types))
  {
    forall n: nat | n >= 1
      ensures InertText(CastReplacement(types)(n)) && InertText(NullReplacement(types)(n))
    {
      PlainName(n);
      match TypeFor(types, n) {
        case None =>
        case Some(ty) =>
          assert PlainText(ty);
          var name := ":" + ParamName(n);
          PlainConcat("CAST(", name);
          PlainConcat("CAST(" + name, " AS ");
          PlainConcat("CAST(" + name + " AS ", ty);
          PlainConcat("CAST(" + name + " AS " + ty, ")");
          assert "CAST(:" + ParamName(n) + " AS " + ty + ")" == "CAST(" + name + " AS " + ty + ")";
          PlainConcat("NULL::", ty);
      }
    }
  }

  /** Rewriting for the Data API commutes with lexing, whatever plain casts it
      writes; and the result has no placeholder left to rewrite. */
  lemma CastsCommute(sql: string, types: seq<Option<string>>, g: nat -> string)
    requires PlainTypes(types)
    ensures var sent := Rewrite(sql, CastReplacement(types));
      && Lex(sent) == RewritePieces(Lex(sql), CastReplacement(types))
      && Rewrite(sent, g) == sent && ParamCount(sent) == 0
  {
    PlainTypesAreInert(types);
    RewriteCommutes(sql, CastReplacement(types));
    RewriteOnce(sql, CastReplacement(types), g);
  }

  /** So does NULL substitution. */
  lemma NullsCommute(sql: string, types: seq<Option<string>>)
    requires PlainTypes(types)
    ensures Lex(Rewrite(sql, NullReplacement(types))) == RewritePieces(Lex(sql), NullReplacement(types))
    ensures ParamCount(Rewrite(sql, NullReplacement(types))) == 0
  {
    PlainTypesAreInert(types);
    RewriteCommutes(sql, NullReplacement(types));
    RewriteOnce(sql, NullReplacement(types), NullReplacement(types));
  }

  method RewritePlaceholdersWithCasts(sql: string, types: seq<Option<string>>) returns (r: Rewritten)
    requires ValidUtf8(sql)
    ensures r.sql == Rewrite(sql, CastReplacement(types)) && r.paramCount == ParamCount(sql)
  {
    r := MapPlaceholders(sql, CastReplacement(types));
  }

  method SubstituteNullParams(sql: string, types: seq<Option<string>>) returns (r: string)
    requires ValidUtf8(sql)
    ensures r == Rewrite(sql, NullReplacement(types))
  {
    var rewritten := MapPlaceholders(sql, NullReplacement(types));
    r := rewritten.sql;
  }

  /** The simple-query path splits and then rewrites each statement without
      casts; rewriting first would give the same statements. */
  lemma SimpleQueryCommutes(sql: string)
    ensures SqlSplit.Statements(Rewrite(sql, CastReplacement([]))) ==
      SqlSplit.RewriteAll(SqlSplit.Statements(sql), CastReplacement([]))
  {
    PlainTypesAreInert([]);
    var f := CastReplacement([]);
    forall n: nat | n >= 1 ensures ';' !in f(n) && SqlSplit.SpaceLen(f(n)) == 0 && f(n)[0] as int < 0x80 {
      var d := Decimal.ToDecimal(n);
      forall i | 0 <= i < |f(n)| ensures f(n)[i] != ';' {
        if i >= 2 {
          assert f(n)[i] == d[i - 2];
        }
      }
    }
    SqlSplit.SplitCommutesWithRewriting(sql, f);
  }

  // ---------------------------------------------------------------------- binding

  /** The indexes that rewriting inserts a name for, in order of appearance. */
  function CodeIndexes(t: string): seq<nat>
    decreases |t|
  {
    if t == "" then []
    else if IsPlaceholder(t) then
      var n := PlaceholderLen(t);
      (if ParseIndex(t[..n][1..]).Some? then [IndexOf(t[..n])] else []) + CodeIndexes(t[n..])
    else CodeIndexes(t[1..])
  }

  function Indexes(ps: seq<Piece>): seq<nat> {
    if ps == [] then []
    else (if ps[0].segment == Code then CodeIndexes(ps[0].text) else []) + Indexes(ps[1..])
  }

  lemma {:induction false} CodeIndexesBound(t: string)
    ensures forall n :: n in CodeIndexes(t) ==> 1 <= n <= SubstMax(t)
    ensures SubstMax(t) > 0 ==> SubstMax(t) in CodeIndexes(t)
    decreases |t|
  {
    if t != "" {
      CodeIndexesBound(t[if IsPlaceholder(t) then PlaceholderLen(t) else 1..]);
    }
  }

  /** The parameter count is the highest index inserted, and 0 if there is none. */
  lemma {:induction false} IndexesBound(ps: seq<Piece>)
    ensures forall n :: n in Indexes(ps) ==> 1 <= n <= PiecesMax(ps)
    ensures PiecesMax(ps) > 0 ==> PiecesMax(ps) in Indexes(ps)
  {
    if ps != [] {
      IndexesBound(ps[1..]);
      CodeIndexesBound(ps[0].text);
    }
  }

  // --------------------------------------- what of the replacements reaches the text

  lemma {:induction false} SubstAgrees(t: string, f: nat -> string, g: nat -> string)
    requires forall n :: n in CodeIndexes(t) ==> f(n) == g(n)
    ensures Subst(t, f) == Subst(t, g)
    decreases |t|
  {
    if t != "" {
      var rest := t[if IsPlaceholder(t) then PlaceholderLen(t) else 1..];
      forall n | n in CodeIndexes(rest) ensures f(n) == g(n) {
        assert n in CodeIndexes(t);
      }
      SubstAgrees(rest, f, g);
    }
  }

  lemma {:induction false} PiecesAgree(ps: seq<Piece>, f: nat -> string, g: nat -> string)
    requires forall n :: n in Indexes(ps) ==> f(n) == g(n)
    ensures RewritePieces(ps, f) == RewritePieces(ps, g)
  {
    if ps != [] {
      if ps[0].segment == Code {
        SubstAgrees(ps[0].text, f, g);
      }
      PiecesAgree(ps[1..], f, g);
    }
  }

  /** No other replacement reaches the rewritten text. */
  lemma RewriteAgrees(sql: string, f: nat -> string, g: nat -> string)
    requires forall n :: n in Indexes(Lex(sql)) ==> f(n) == g(n)
    ensures Rewrite(sql, f) == Rewrite(sql, g)
  {
    PiecesAgree(Lex(sql), f, g);
    RewriteByPieces(sql, f);
    RewriteByPieces(sql, g);
  }

  /** Nothing for every placeholder; and one byte for each `$n`. */
  function Nothing(): nat -> string { (k: nat) => "" }

  function Mark(n: nat): nat -> string { (k: nat) => if k == n then "x" else "" }

  lemma {:induction false} SubstMarks(t: string, n: nat)
    ensures |Subst(t, Mark(n))| == |Subst(t, Nothing())| + multiset(CodeIndexes(t))[n]
    decreases |t|
  {
    if t == "" {
    } else if IsPlaceholder(t) {
      var k := PlaceholderLen(t);
      SubstMarks(t[k..], n);
      if ParseIndex(t[..k][1..]).Some? {
        assert multiset(CodeIndexes(t)) == multiset{IndexOf(t[..k])} + multiset(CodeIndexes(t[k..]));
      }
    } else {
      SubstMarks(t[1..], n);
    }
  }

  lemma {:induction false} PiecesMark(ps: seq<Piece>, n: nat)
    ensures |JoinText(RewritePieces(ps, Mark(n)))|
        == |JoinText(RewritePieces(ps, Nothing()))| + multiset(Indexes(ps))[n]
  {
    if ps != [] {
      PiecesMark(ps[1..], n);
      var rest := Indexes(ps[1..]);
      assert RewritePieces(ps, Mark(n))[1..] == RewritePieces(ps[1..], Mark(n));
      assert RewritePieces(ps, Nothing())[1..] == RewritePieces(ps[1..], Nothing());
      if ps[0].segment == Code {
        SubstMarks(ps[0].text, n);
        assert multiset(Indexes(ps)) == multiset(CodeIndexes(ps[0].text)) + multiset(rest);
      } else {
        assert Indexes(ps) == rest;
      }
    }
  }

  /** The rewritten text takes in the replacement for `n` exactly as often as `n` is in
      the list of indexes. */
  lemma InsertedExactly(sql: string, n: nat)
    ensures |Rewrite(sql, Mark(n))| == |Rewrite(sql, Nothing())| + multiset(Indexes(Lex(sql)))[n]
    ensures Rewrite(sql, Mark(n)) != Rewrite(sql, Nothing()) <==> n in Indexes(Lex(sql))
  {
    PiecesMark(Lex(sql), n);
    RewriteByPieces(sql, Mark(n));
    RewriteByPieces(sql, Nothing());
    if n !in Indexes(Lex(sql)) {
      RewriteAgrees(sql, Mark(n), Nothing());
    }
  }

  // ------------------------------------------------------------------ names and values

  lemma ParamNameInjective(m: nat, n: nat)
    requires ParamName(m) == ParamName(n)
    ensures m == n
  {
    assert ParamName(m)[1..] == Decimal.ToDecimal(m) && ParamName(n)[1..] == Decimal.ToDecimal(n);
    Decimal.DecimalRoundTrip(m);
    Decimal.DecimalRoundTrip(n);
  }

  /** A value to bind, and what it becomes on the wire. */
  datatype Parameter<V> = Parameter(name: string, value: V)

  /** The names sent for `bound` parameters of a statement (src/handlers.rs:447-474). */
  function SentNames(sql: string, bound: nat): (names: seq<string>)
    ensures |names| == if bound < ParamCount(sql) then bound else ParamCount(sql)
  {
    var count := if bound < ParamCount(sql) then bound else ParamCount(sql);
    seq(count, i requires 0 <= i < count => ParamName(i + 1))
  }

  /** Every name inserted is bound, exactly when as many parameters are bound as
      the highest index asks for. */
  lemma EveryNameIsBound(sql: string, bound: nat)
    ensures bound >= ParamCount(sql) <==>
      forall n :: n in Indexes(Lex(sql)) ==> ParamName(n) in SentNames(sql, bound)
  {
    hide Lex, ParamName, Indexes, PiecesMax;
    var names, top := SentNames(sql, bound), ParamCount(sql);
    IndexesBound(Lex(sql));
    if bound >= top {
      forall n | n in Indexes(Lex(sql)) ensures ParamName(n) in names {
        assert names[n - 1] == ParamName(n);
      }
    } else {
      assert top in Indexes(Lex(sql));
      if ParamName(top) in names {
        var i :| 0 <= i < |names| && names[i] == ParamName(top);
        ParamNameInjective(i + 1, top);
      }
    }
  }

  /** `SELECT $2` with one value bound: the text asks for `:p2`, and only `p1` is sent. */
  lemma SecondUnbound()
    ensures Indexes(Lex("SELECT $2")) == [2] && ParamCount("SELECT $2") == 2
    ensures SentNames("SELECT $2", 1) == [ParamName(1)] && ParamName(2) !in SentNames("SELECT $2", 1)
  {
    hide Lex, ParamName, PiecesMax, Indexes, Decimal.FromDigits;
    TwoIsPlaceholder();
    OnePlaceholder("SELECT ", "$2");
    assert "SELECT " + "$2" == "SELECT $2";
    if ParamName(2) == ParamName(1) {
      ParamNameInjective(2, 1);
    }
  }

  lemma TwoIsPlaceholder()
    ensures IsPlaceholder("$2") && PlaceholderLen("$2") == 2
    ensures ParseIndex("$2"[1..]) == Some(2) && IndexOf("$2") == 2
  {
    assert "$2"[1..] == "2" && "2"[..0] == "";
    assert Decimal.FromDigits("2") == 2;
  }

  lemma OnePlaceholder(code: string, p: string)
    requires InertText(code) && IsPlaceholder(p) && PlaceholderLen(p) == |p| && ParseIndex(p[1..]).Some?
    ensures Indexes(Lex(code + p)) == [IndexOf(p)] && ParamCount(code + p) == IndexOf(p)
  {
    PlaceholderAlone(p);
    InertIsCode(code, p);
    PlainBefore(code, p);
    OnePiece(Piece(Code, code + p));
  }

  lemma OnePiece(p: Piece)
    requires p.segment == Code
    ensures Indexes([p]) == CodeIndexes(p.text) && PiecesMax([p]) == SubstMax(p.text)
  {
    assert [p][1..] == [];
  }

  lemma PlaceholderAlone(p: string)
    requires IsPlaceholder(p) && PlaceholderLen(p) == |p| && ParseIndex(p[1..]).Some?
    ensures Lex(p) == [Piece(Code, p)]
    ensures CodeIndexes(p) == [IndexOf(p)] && SubstMax(p) == IndexOf(p)
  {
    LexPlaceholder(p);
    assert p[..|p|] == p && p[|p|..] == "" && Lex("") == [] && CodeIndexes("") == [] && SubstMax("") == 0;
  }

  lemma {:induction false} PlainBefore(x: string, u: string)
    requires forall i :: 0 <= i < |x| ==> x[i] != '$'
    ensures CodeIndexes(x + u) == CodeIndexes(u) && SubstMax(x + u) == SubstMax(u)
  {
    if x == "" {
      assert x + u == u;
    } else {
      PlainBefore(x[1..], u);
      assert (x + u)[1..] == x[1..] + u;
    }
  }

  /** No name is sent twice, so each inserted name is bound by one parameter only. */
  lemma SentNamesDistinct(sql: string, bound: nat, i: nat, j: nat)
    requires i < j < |SentNames(sql, bound)|
    ensures SentNames(sql, bound)[i] != SentNames(sql, bound)[j]
  {
    if ParamName(i + 1) == ParamName(j + 1) {
      ParamNameInjective(i + 1, j + 1);
    }
  }

  // ------------------------------------------------------------------ prepare_portal

  /** What the model leaves open of binding: the name a declared type is cast to, the type
      a name stands for, and the conversion of a value, which may reject it. */
  datatype Binding<!T, !R, V> = Binding(
    unknown: T,
    castName: T -> Option<string>,
    typeOf: string -> T,
    convert: (nat, R, T) -> Option<V>)

  function Declared<T(==)>(declared: seq<Option<T>>, i: nat, unknown: T): Option<T> {
    if i < |declared| && declared[i] != Some(unknown) then declared[i] else None
  }

  /** Some bound value has no declared type, so the statement has to be described. */
  predicate NeedsProbe<T(==)>(declared: seq<Option<T>>, bound: nat, unknown: T) {
    exists i :: 0 <= i < bound && Declared(declared, i, unknown).None?
  }

  /** `merge_param_types`: what the client declared, and what the probe found for the rest. */
  function MergeParamTypes<T>(declared: seq<Option<T>>, probed: seq<Option<string>>, count: nat,
      castName: T -> Option<string>): (types: seq<Option<string>>)
    ensures |types| == count
  {
    seq(count, i requires 0 <= i < count =>
      if i < |declared| && declared[i].Some? && castName(declared[i].value).Some? then castName(declared[i].value)
      else if i < |probed| then probed[i] else None)
  }

  /** The type a value is decoded by: the declared one, or what its cast stands for. */
  function DecodedAs<T(==), R, V>(declared: seq<Option<T>>, types: seq<Option<string>>, i: nat, b: Binding<T, R, V>): T
  {
    if Declared(declared, i, b.unknown).Some? then Declared(declared, i, b.unknown).value
    else if i < |types| && types[i].Some? then b.typeOf(types[i].value)
    else b.unknown
  }

  /** The casts written into the text, given what a probe would answer: it is asked only
      if a type is missing, and does without its answer if that fails. What a client
      declared with a type that can be cast wins over any probe. */
  function CastTypes<T(==), R, V>(declared: seq<Option<T>>, bound: nat, probe: Option<seq<Option<string>>>,
      b: Binding<T, R, V>): (types: seq<Option<string>>)
    ensures |types| == bound
    ensures forall i :: 0 <= i < bound && i < |declared| && declared[i].Some? && b.castName(declared[i].value).Some? ==>
      types[i] == b.castName(declared[i].value)
  {
    if bound == 0 then []
    else
      var probed := if NeedsProbe(declared, bound, b.unknown) && probe.Some? then probe.value else [];
      MergeParamTypes(declared, probed, bound, b.castName)
  }

  method NeedsProbeMethod<T(==)>(declared: seq<Option<T>>, bound: nat, unknown: T) returns (needed: bool)
    ensures needed == NeedsProbe(declared, bound, unknown)
  {
    for i := 0 to bound
      invariant forall k :: 0 <= k < i ==> Declared(declared, k, unknown).Some?
    {
      if i >= |declared| || declared[i].None? || declared[i].value == unknown {
        assert Declared(declared, i, unknown).None?;
        return true;
      }
    }
    return false;
  }

  lemma NamesSpelled()
    ensures forall n: nat :: ParamName(n) == "p" + Decimal.ToDecimal(n)
  {
  }

  lemma CastsNameParameters(types: seq<Option<string>>)
    ensures forall i :: 0 <= i < |types| ==>
      CastReplacement(types)(i + 1) ==
        if types[i].Some? then "CAST(:" + ParamName(i + 1) + " AS " + types[i].value + ")" else ":" + ParamName(i + 1)
  {
  }

  /** The source's `prepare_portal`: the text with its casts, and one converted value for
      each name in it. */
  method PreparePortal<T(==), R, V>(sql: string, declared: seq<Option<T>>, values: seq<R>,
      probe: Option<seq<Option<string>>>, b: Binding<T, R, V>)
    returns (sent: string, params: Option<seq<Parameter<V>>>)
    requires ValidUtf8(sql)
    ensures var types := CastTypes(declared, |values|, probe, b);
      && sent == Rewrite(sql, CastReplacement(types))
      && (params.Some? <==> forall i :: 0 <= i < |SentNames(sql, |values|)| ==>
            b.convert(i + 1, values[i], DecodedAs(declared, types, i, b)).Some?)
      && (params.Some? ==>
            && |params.value| == |SentNames(sql, |values|)|
            && forall i :: 0 <= i < |params.value| ==>
                 && params.value[i].name == SentNames(sql, |values|)[i] == "p" + Decimal.ToDecimal(i + 1)
                 && b.convert(i + 1, values[i], DecodedAs(declared, types, i, b)) == Some(params.value[i].value)
                 && CastReplacement(types)(i + 1) ==
                      if types[i].Some? then "CAST(:" + params.value[i].name + " AS " + types[i].value + ")"
                      else ":" + params.value[i].name)
  {
    hide Rewrite, CastReplacement, ParamCount, DecodedAs, NeedsProbe, ParamName;
    NamesSpelled();
    CastsNameParameters(CastTypes(declared, |values|, probe, b));
    if |values| == 0 {
      var plain := MapPlaceholders(sql, CastReplacement([]));
      return plain.sql, Some([]);
    }
    var needed := NeedsProbeMethod(declared, |values|, b.unknown);
    var types := MergeParamTypes(declared, if needed && probe.Some? then probe.value else [], |values|, b.castName);
    var rewritten := RewritePlaceholdersWithCasts(sql, types);
    sent := rewritten.sql;
    var count := if |values| < rewritten.paramCount then |values| else rewritten.paramCount;
    var out: seq<Parameter<V>> := [];
    for i := 0 to count
      invariant |out| == i
      invariant forall k :: 0 <= k < i ==>
        && out[k].name == ParamName(k + 1)
        && b.convert(k + 1, values[k], DecodedAs(declared, types, k, b)) == Some(out[k].value)
    {
      match b.convert(i + 1, values[i], DecodedAs(declared, types, i, b)) {
        case None =>
          return sent, None;
        case Some(v) =>
          out := out + [Parameter(ParamName(i + 1), v)];
      }
    }
    return sent, Some(out);
  }
}
