/**
  Whether the probe of a read can write: the write check of src/sql.rs:444-482 on the
  shape query of src/probe.rs:301-315, with a typed null for every placeholder.
*/
module ProbeWrites {
  import opened Wrappers
  import opened SqlBinding
  import opened SqlLexer
  import opened SqlNulls
  import opened SqlRewrite
  import opened SqlTokens
  import opened SqlWords
  import opened SqlWrites
  import opened Probe
  import opened ProbeWrap
  import Decimal

  /** No placeholder of a code run is directly followed by an identifier byte, as in
      `$1x`, junk after a parameter to PostgreSQL, or in `a$1x`, one identifier to
      PostgreSQL and a placeholder all the same to the rewriter. */
  predicate SeparatedText(t: string)
    decreases |t|
  {
    if t == "" then true
    else if IsPlaceholder(t) then
      EndsWord(t[PlaceholderLen(t)..]) && SeparatedText(t[PlaceholderLen(t)..])
    else SeparatedText(t[1..])
  }

  predicate Separated(ps: seq<Piece>) {
    forall p :: p in ps && p.segment == Code ==> SeparatedText(p.text)
  }

  /** The type put behind the null for `n` holds a write keyword itself. */
  ghost predicate WritingType(types: seq<Option<string>>, n: nat) {
    TypeFor(types, n).Some? && HasWrite(CodeWords(TypeFor(types, n).value))
  }

  ghost predicate WritingTypes(types: seq<Option<string>>, indexes: seq<nat>) {
    exists n :: n in indexes && WritingType(types, n)
  }

  // ------------------------------------------------------------------- one word run

  /** Identifier bytes that no write keyword ends in. */
  ghost predicate Spoils(q: string) {
    && q != "" && (forall i :: 0 <= i < |q| ==> IsIdentChar(q[i]))
    && (Decimal.IsDigit(q[|q| - 1]) || q[|q| - 1] == 'L')
    && !HasWrite(CodeWords(q))
  }

  lemma SpoiltWord(a: string, q: string)
    requires Spoils(q)
    ensures Upper(a + q) !in WRITE_KEYWORDS
  {
    var u := Upper(a + q);
    var c := (a + q)[|a + q| - 1];
    assert c == q[|q| - 1];
    assert u[|u| - 1] != 'T' && u[|u| - 1] != 'E';
    KeywordEnds(u);
  }

  lemma KeywordEnds(u: string)
    requires u != "" && u[|u| - 1] != 'T' && u[|u| - 1] != 'E'
    ensures u !in WRITE_KEYWORDS
  {
  }

  lemma {:induction false} RunsThrough(a: string, q: string)
    requires (forall i :: 0 <= i < |a| ==> IsIdentChar(a[i])) && forall i :: 0 <= i < |q| ==> IsIdentChar(q[i])
    ensures WordLen(a + q) == |a| + |q|
    decreases |a| + |q|
  {
    if a != "" {
      assert (a + q)[1..] == a[1..] + q;
      RunsThrough(a[1..], q);
    } else if q != "" {
      assert a + q == q && q[1..] + "" == q[1..];
      RunsThrough(q[1..], "");
    }
  }

  lemma {:induction false} WordStops(a: string, q: string)
    requires WordLen(a) < |a|
    ensures WordLen(a + q) == WordLen(a)
  {
    assert (a + q)[1..] == a[1..] + q;
    if WordLen(a) > 0 {
      WordStops(a[1..], q);
    }
  }

  /** Which of two such runs ends a text makes no difference to its write keywords. */
  lemma {:induction false} SpoiltEnds(a: string, q: string, r: string)
    requires Spoils(q) && Spoils(r)
    ensures HasWrite(CodeWords(a + q)) <==> HasWrite(CodeWords(a + r))
    decreases |a|
  {
    if a == "" {
      assert a + q == q && a + r == r;
    } else if !IsIdentStart(a[0]) {
      assert (a + q)[1..] == a[1..] + q && (a + r)[1..] == a[1..] + r;
      SpoiltEnds(a[1..], q, r);
    } else if WordLen(a) < |a| {
      var n := WordLen(a);
      WordStops(a, q);
      WordStops(a, r);
      assert (a + q)[..n] == a[..n] && (a + q)[n..] == a[n..] + q;
      assert (a + r)[..n] == a[..n] && (a + r)[n..] == a[n..] + r;
      SpoiltEnds(a[n..], q, r);
      WriteConcat([a[..n]], CodeWords(a[n..] + q));
      WriteConcat([a[..n]], CodeWords(a[n..] + r));
    } else {
      WholeWord(a, q);
      WholeWord(a, r);
    }
  }

  lemma WholeWord(a: string, q: string)
    requires a != "" && IsIdentStart(a[0]) && WordLen(a) == |a| && Spoils(q)
    ensures !HasWrite(CodeWords(a + q))
  {
    RunsThrough(a, q);
    SpoiltWord(a, q);
    assert (a + q)[0] == a[0];
    WholeRun(a + q);
  }

  // ------------------------------------------------------------- one placeholder

  lemma NullSpoils()
    ensures Spoils("NULL")
  {
    assert CodeWords("NULL") == ["NULL"] by {
      RunsThrough("NULL", "");
      assert "NULL" + "" == "NULL" && "NULL"[4..] == "";
    }
    KeywordEnds(Upper("NULL"));
  }

  lemma {:induction false} NoWordIn(p: string)
    requires forall i :: 0 <= i < |p| ==> !IsIdentStart(p[i])
    ensures CodeWords(p) == []
  {
    if p != "" {
      NoWordIn(p[1..]);
    }
  }

  lemma PlaceholderSpoils(p: string)
    requires |p| >= 2 && p[0] == '$' && Decimal.AllDigits(p[1..])
    ensures Spoils(p)
  {
    forall i | 0 <= i < |p| ensures IsIdentChar(p[i]) && !IsIdentStart(p[i]) {
      if i > 0 {
        assert p[i] == p[1..][i - 1];
      }
    }
    assert p[|p| - 1] == p[1..][|p| - 2];
    NoWordIn(p);
  }

  /** A null behind any text has the write keywords of the placeholder it stands for, and
      those of its type. */
  lemma NullWrites(a: string, p: string, types: seq<Option<string>>, k: nat)
    requires |p| >= 2 && p[0] == '$' && Decimal.AllDigits(p[1..])
    ensures HasWrite(CodeWords(a + NullReplacement(types)(k))) <==>
      HasWrite(CodeWords(a + p)) || WritingType(types, k)
  {
    hide CodeWords;
    NullSpoils();
    PlaceholderSpoils(p);
    SpoiltEnds(a, p, "NULL");
    match TypeFor(types, k) {
      case None =>
      case Some(ty) =>
        WriteApart(a + "NULL", ':', ":" + ty);
        WriteApart("", ':', ty);
        NoWordInNothing();
        assert "" + [':'] + ty == ":" + ty;
        assert a + "NULL" + [':'] + (":" + ty) == a + ("NULL::" + ty);
    }
  }

  lemma OneNull(a: string, p: string, x: string, rest: string, bad: bool)
    requires EndsWord(rest)
    requires HasWrite(CodeWords(a + x)) <==> HasWrite(CodeWords(a + p)) || bad
    ensures HasWrite(CodeWords(a + x + rest)) <==> HasWrite(CodeWords(a + p + rest)) || bad
  {
    CodeWordsConcat(a + x, rest);
    CodeWordsConcat(a + p, rest);
    WriteConcat(CodeWords(a + x), CodeWords(rest));
    WriteConcat(CodeWords(a + p), CodeWords(rest));
  }

  /** Nulls put into a code run add the write keywords of their types, and no other. */
  lemma {:induction false} NullsWrite(a: string, t: string, types: seq<Option<string>>)
    requires SeparatedText(t)
    ensures HasWrite(CodeWords(a + Subst(t, NullReplacement(types)))) <==>
      HasWrite(CodeWords(a + t)) || WritingTypes(types, CodeIndexes(t))
    decreases |t|
  {
    hide CodeWords, HasWrite, NullReplacement;
    var f := NullReplacement(types);
    if t == "" {
    } else if IsPlaceholder(t) {
      var n := PlaceholderLen(t);
      var p, rest := t[..n], t[n..];
      var x := Replacement(p, f);
      assert Decimal.AllDigits(p[1..]);
      assert a + t == a + p + rest && a + Subst(t, f) == (a + x) + Subst(rest, f);
      NullsWrite(a + x, rest, types);
      match ParseIndex(p[1..]) {
        case Some(k) =>
          NullWrites(a, p, types, k);
          OneNull(a, p, x, rest, WritingType(types, k));
          assert CodeIndexes(t) == [k] + CodeIndexes(rest);
        case None =>
      }
    } else {
      assert a + t == (a + t[..1]) + t[1..];
      assert a + Subst(t, f) == (a + t[..1]) + Subst(t[1..], f);
      NullsWrite(a + t[..1], t[1..], types);
    }
  }

  lemma {:induction false} PiecesWrite(ps: seq<Piece>, types: seq<Option<string>>)
    requires Separated(ps)
    ensures AnyWrite(RewritePieces(ps, NullReplacement(types))) <==> AnyWrite(ps) || WritingTypes(types, Indexes(ps))
  {
    if ps != [] {
      hide NullReplacement, HasWriteWord;
      var rs := RewritePieces(ps, NullReplacement(types));
      assert rs == [RewritePiece(ps[0], NullReplacement(types))] + RewritePieces(ps[1..], NullReplacement(types));
      PiecesWrite(ps[1..], types);
      AnyWriteConcat([rs[0]], RewritePieces(ps[1..], NullReplacement(types)));
      AnyWriteConcat([ps[0]], ps[1..]);
      assert ps == [ps[0]] + ps[1..];
      AnyWriteOne(rs[0]);
      AnyWriteOne(ps[0]);
      PieceWrites(ps[0], types);
    }
  }

  lemma PieceWrites(p: Piece, types: seq<Option<string>>)
    requires p.segment == Code ==> SeparatedText(p.text)
    ensures HasWriteWord(RewritePiece(p, NullReplacement(types))) <==>
      HasWriteWord(p) || (p.segment == Code && WritingTypes(types, CodeIndexes(p.text)))
  {
    hide CodeWords, NullReplacement;
    if p.segment == Code {
      NullsWrite("", p.text, types);
      var out := Subst(p.text, NullReplacement(types));
      assert "" + p.text == p.text && "" + out == out;
    }
  }

  // ------------------------------------------------------------------- the result

  /** The shape query holds a write keyword in code exactly if the statement does, or one
      of the types found for its placeholders. */
  lemma ShapeQueryWritesExactly(sql: string, types: seq<Option<string>>)
    requires PlainTypes(types) && Separated(Lex(sql))
    ensures ModifiesData(ShapeQuery(sql, types)) <==> ModifiesData(sql) || WritingTypes(types, Indexes(Lex(sql)))
  {
    hide NullReplacement, ShapeQuery, HasWriteWord;
    ShapeQueryWrites(sql, types);
    NullsCommute(sql, types);
    PiecesWrite(Lex(sql), types);
  }

  /** So probing a read writes nothing, types of that kind apart. */
  lemma ProbeOfReadWritesNothing(sql: string, types: seq<Option<string>>)
    requires PlainTypes(types) && Separated(Lex(sql)) && !ModifiesData(sql)
    requires forall i :: 0 <= i < |types| && types[i].Some? ==> !HasWrite(CodeWords(types[i].value))
    ensures !ModifiesData(ShapeQuery(sql, types))
  {
    hide PlainTypes, Separated, ModifiesData, ShapeQuery, Indexes;
    ShapeQueryWritesExactly(sql, types);
    forall n: nat ensures !WritingType(types, n) {
    }
  }

  // ------------------------------------------------------------ run-on placeholders

  /** What stands between the double colons of the nulls put into a code run: each stretch
      but the first opens with the name of a type, and goes on with the bytes behind its
      placeholder up to the next typed null. */
  function Stretches(a: string, t: string, types: seq<Option<string>>): seq<string>
    decreases |t|
  {
    if t == "" then [a]
    else if IsPlaceholder(t) then
      var n := PlaceholderLen(t);
      match ParseIndex(t[..n][1..])
      case None => Stretches(a + t[..n], t[n..], types)
      case Some(k) =>
        match TypeFor(types, k)
        case None => Stretches(a + "NULL", t[n..], types)
        case Some(ty) => [a + "NULL"] + Stretches(ty, t[n..], types)
    else Stretches(a + t[..1], t[1..], types)
  }

  ghost predicate SomeWrites(texts: seq<string>) { exists t :: t in texts && HasWrite(CodeWords(t)) }

  lemma SomeWritesFirst(t: string, texts: seq<string>)
    ensures SomeWrites([t] + texts) <==> HasWrite(CodeWords(t)) || SomeWrites(texts)
  {
    assert t in [t] + texts;
    assert forall u :: u in texts ==> u in [t] + texts;
  }

  /** A typed null keeps the words in front of it apart from the type's name and what is
      behind it. */
  lemma TypedNullApart(a: string, ty: string, rest: string)
    ensures HasWrite(CodeWords(a + ("NULL::" + ty) + rest)) <==>
      HasWrite(CodeWords(a + "NULL")) || HasWrite(CodeWords(ty + rest))
  {
    hide CodeWords;
    WriteApart(a + "NULL", ':', ":" + ty + rest);
    WriteApart("", ':', ty + rest);
    NoWordInNothing();
    assert "" + [':'] + (ty + rest) == ":" + ty + rest;
    assert a + "NULL" + [':'] + (":" + ty + rest) == a + ("NULL::" + ty) + rest;
  }

  lemma {:induction false} StretchesWrite(a: string, t: string, types: seq<Option<string>>)
    ensures HasWrite(CodeWords(a + Subst(t, NullReplacement(types)))) <==> SomeWrites(Stretches(a, t, types))
    decreases |t|
  {
    hide CodeWords, HasWrite;
    var f := NullReplacement(types);
    if t == "" {
      assert a + "" == a;
      assert a in [a];
    } else if IsPlaceholder(t) {
      var n := PlaceholderLen(t);
      var p, rest := t[..n], t[n..];
      assert Decimal.AllDigits(p[1..]);
      var x := Replacement(p, f);
      assert a + Subst(t, f) == a + x + Subst(rest, f);
      hide Subst, SomeWrites;
      match ParseIndex(p[1..]) {
        case None => StretchesWrite(a + p, rest, types);
        case Some(k) =>
          match TypeFor(types, k) {
            case None => StretchesWrite(a + "NULL", rest, types);
            case Some(ty) =>
              StretchesWrite(ty, rest, types);
              TypedNullApart(a, ty, Subst(rest, f));
              SomeWritesFirst(a + "NULL", Stretches(ty, rest, types));
          }
      }
    } else {
      assert a + Subst(t, f) == (a + t[..1]) + Subst(t[1..], f);
      StretchesWrite(a + t[..1], t[1..], types);
    }
  }

  /** Whether or not a placeholder runs on: the shape query holds a write keyword in code
      exactly if one stands as a word in a stretch, be it in the statement's own bytes, in
      a type's name, or made of the end of that name and the bytes behind it. */
  lemma ShapeQueryByStretches(sql: string, types: seq<Option<string>>)
    requires PlainTypes(types)
    ensures ModifiesData(ShapeQuery(sql, types)) <==>
      exists p :: p in Lex(sql) && p.segment == Code && SomeWrites(Stretches("", p.text, types))
  {
    hide NullReplacement, ShapeQuery, SomeWrites, Lex, Rewrite;
    ShapeQueryWrites(sql, types);
    NullsCommute(sql, types);
    var ps, f := Lex(sql), NullReplacement(types);
    var rs := RewritePieces(ps, f);
    forall i | 0 <= i < |ps|
      ensures HasWriteWord(rs[i]) <==> ps[i].segment == Code && SomeWrites(Stretches("", ps[i].text, types))
    {
      StretchesWrite("", ps[i].text, types);
      assert "" + Subst(ps[i].text, f) == Subst(ps[i].text, f);
    }
    hide HasWriteWord;
    if ModifiesData(Rewrite(sql, f)) {
      var r :| r in rs && HasWriteWord(r);
      var i :| 0 <= i < |rs| && rs[i] == r;
      assert ps[i] in ps;
    }
    if p :| p in ps && p.segment == Code && SomeWrites(Stretches("", p.text, types)) {
      var i :| 0 <= i < |ps| && ps[i] == p;
      assert rs[i] in rs;
    }
  }

  // -------------------------------------------------------------------- an example

  predicate OnlyCode(t: string) { t == "" || Lex(t) == [Piece(Code, t)] }

  lemma InertThenCode(x: string, t: string)
    requires InertText(x) && OnlyCode(t)
    ensures OnlyCode(x + t)
  {
    InertIsCode(x, t);
    assert t == "" ==> x + t == x;
    assert [Piece(Code, t)][1..] == [];
  }

  lemma PlaceholderThen(p: string, t: string)
    requires IsPlaceholder(p) && PlaceholderLen(p) == |p| && (t == "" || !Decimal.IsDigit(t[0]))
    ensures IsPlaceholder(p + t) && PlaceholderLen(p + t) == |p| && (p + t)[..|p|] == p && (p + t)[|p|..] == t
  {
    RunEnds(p + t, |p|);
  }

  lemma PlaceholderThenCode(p: string, t: string)
    requires IsPlaceholder(p) && PlaceholderLen(p) == |p| && (t == "" || !Decimal.IsDigit(t[0])) && OnlyCode(t)
    ensures OnlyCode(p + t)
  {
    PlaceholderThen(p, t);
    LexPlaceholder(p + t);
    assert t == "" ==> p + t == p;
    assert [Piece(Code, t)][1..] == [];
  }

  lemma {:induction false} InertStretch(a: string, x: string, t: string, types: seq<Option<string>>)
    requires forall i :: 0 <= i < |x| ==> x[i] != '$'
    ensures Stretches(a, x + t, types) == Stretches(a + x, t, types)
    decreases |x|
  {
    if x == "" {
      assert x + t == t && a + x == a;
    } else {
      InertStretch(a + x[..1], x[1..], t, types);
      assert (x + t)[1..] == x[1..] + t && (x + t)[..1] == x[..1];
      assert (a + x[..1]) + x[1..] == a + x;
    }
  }

  lemma TypedStretch(a: string, p: string, t: string, types: seq<Option<string>>)
    requires IsPlaceholder(p) && PlaceholderLen(p) == |p| && (t == "" || !Decimal.IsDigit(t[0]))
    requires ParseIndex(p[1..]).Some? && TypeFor(types, ParseIndex(p[1..]).value).Some?
    ensures Stretches(a, p + t, types) ==
      [a + "NULL"] + Stretches(TypeFor(types, ParseIndex(p[1..]).value).value, t, types)
  {
    PlaceholderThen(p, t);
  }

  const RUN_ON := "SELECT x$1insert, $1::int4[]"

  /** A read whose placeholder runs on into `insert` inside an identifier; the server finds
      an array type for it at its other place, and the shape query holds a write keyword. */
  lemma RunOnExample()
    ensures !ModifiesData(RUN_ON) && !Separated(Lex(RUN_ON))
    ensures ModifiesData(ShapeQuery(RUN_ON, [Some("int4[]")]))
  {
    RunOnLexes();
    RunOnReads();
    RunOnMerges();
    RunOnStretches();
    hide Lex, HasWrite, CodeWords, ShapeQuery, SeparatedText, Stretches;
    assert Piece(Code, RUN_ON) in Lex(RUN_ON);
    ShapeQueryByStretches(RUN_ON, [Some("int4[]")]);
  }

  lemma RunOnParts()
    ensures RUN_ON == "SELECT x" + ("$1" + ("insert, " + ("$1" + "::int4[]")))
    ensures InertText("SELECT x") && InertText("insert, ") && InertText("::int4[]")
  {
  }

  lemma RunOnLexes()
    ensures Lex(RUN_ON) == [Piece(Code, RUN_ON)]
  {
    hide Lex, InertText, IsPlaceholder, PlaceholderLen, ParseIndex;
    RunOnParts();
    OneIndex();
    NothingIsCode();
    assert "::int4[]" + "" == "::int4[]";
    InertThenCode("::int4[]", "");
    PlaceholderThenCode("$1", "::int4[]");
    InertThenCode("insert, ", "$1" + "::int4[]");
    PlaceholderThenCode("$1", "insert, " + ("$1" + "::int4[]"));
    InertThenCode("SELECT x", "$1" + ("insert, " + ("$1" + "::int4[]")));
  }

  lemma NothingIsCode()
    ensures OnlyCode("")
  {
  }

  lemma RunOnMerges()
    ensures !SeparatedText(RUN_ON)
  {
    hide InertText, IsPlaceholder, PlaceholderLen, ParseIndex;
    RunOnParts();
    OneIndex();
    var t := "insert, " + ("$1" + "::int4[]");
    PlaceholderThen("$1", t);
    assert t[0] == 'i' && !SeparatedText("$1" + t);
    NotSeparated("SELECT x", "$1" + t);
  }

  lemma {:induction false} NotSeparated(w: string, t: string)
    requires forall i :: 0 <= i < |w| ==> w[i] != '$'
    ensures SeparatedText(w + t) == SeparatedText(t)
  {
    if w == "" {
      assert w + t == t;
    } else {
      assert (w + t)[1..] == w[1..] + t;
      NotSeparated(w[1..], t);
    }
  }

  lemma RunOnStretches()
    ensures SomeWrites(Stretches("", RUN_ON, [Some("int4[]")]))
  {
    hide IsPlaceholder, PlaceholderLen, ParseIndex, InertText, Stretches, CodeWords, HasWrite;
    var types := [Some("int4[]")];
    RunOnParts();
    OneIndex();
    var t := "$1" + "::int4[]";
    InertStretch("", "SELECT x", "$1" + ("insert, " + t), types);
    TypedStretch("" + "SELECT x", "$1", "insert, " + t, types);
    InertStretch("int4[]", "insert, ", t, types);
    TypedStretch("int4[]" + "insert, ", "$1", "::int4[]", types);
    RunOnWrites();
    var written := "int4[]" + "insert, " + "NULL";
    assert written in Stretches("int4[]", "insert, " + t, types);
    assert written in Stretches("", RUN_ON, types);
  }

  lemma RunOnWrites()
    ensures HasWrite(CodeWords("int4[]" + "insert, " + "NULL"))
  {
    hide CodeWords;
    WriteApart("int4[", ']', "insert, NULL");
    WriteApart("insert", ',', " NULL");
    assert "int4[" + [']'] + "insert, NULL" == "int4[]" + "insert, " + "NULL";
    assert "insert" + [','] + " NULL" == "insert, NULL";
    InsertIsWord();
  }

  lemma InsertIsWord()
    ensures HasWrite(CodeWords("insert"))
  {
    RunsThrough("insert", "");
    assert "insert" + "" == "insert" && "insert"[..6] == "insert";
    assert "insert" in CodeWords("insert");
    assert Upper("insert") == "INSERT";
  }

  lemma OneWord(w: string)
    requires w != "" && IsIdentStart(w[0]) && forall i :: 0 <= i < |w| ==> IsIdentChar(w[i])
    requires |w| !in {5, 6} || w[0] == 'S'
    ensures !HasWrite(CodeWords(w))
  {
    RunsThrough(w, "");
    assert w + "" == w;
    WholeRun(w);
    hide CodeWords;
    NotKeyword(w);
  }

  lemma WholeRun(w: string)
    requires w != "" && IsIdentStart(w[0]) && WordLen(w) == |w|
    ensures CodeWords(w) == [w]
  {
    assert w[..|w|] == w && w[|w|..] == "";
  }

  lemma NotKeyword(w: string)
    requires w != "" && (|w| !in {5, 6} || w[0] == 'S')
    ensures Upper(w) !in WRITE_KEYWORDS
  {
    assert |Upper(w)| == |w| && (w[0] == 'S' ==> Upper(w)[0] == 'S');
    hide Upper;
  }

  lemma RunOnReads()
    ensures !HasWrite(CodeWords(RUN_ON))
  {
    hide CodeWords;
    RunOnSelect();
    RunOnTail();
    WriteApart("SELECT", ' ', "x$1insert, $1::int4[]");
    WriteApart("x$1insert", ',', " $1::int4[]");
    assert "SELECT" + [' '] + "x$1insert, $1::int4[]" == RUN_ON;
    assert "x$1insert" + [','] + " $1::int4[]" == "x$1insert, $1::int4[]";
  }

  lemma RunOnSelect()
    ensures !HasWrite(CodeWords("SELECT")) && !HasWrite(CodeWords("x$1insert"))
  {
    hide CodeWords, HasWrite;
    OneWord("SELECT");
    OneWord("x$1insert");
  }

  lemma RunOnTail()
    ensures !HasWrite(CodeWords(" $1::int4[]"))
  {
    hide CodeWords, HasWrite;
    TailWords();
    WriteApart("", ':', "int4[]");
    WriteApart(" $1", ':', ":int4[]");
    assert "" + [':'] + "int4[]" == ":int4[]";
    assert " $1" + [':'] + ":int4[]" == " $1::int4[]";
  }

  lemma TailWords()
    ensures !HasWrite(CodeWords("")) && !HasWrite(CodeWords(" $1")) && !HasWrite(CodeWords("int4[]"))
  {
    hide CodeWords;
    NoWordIn(" $1");
    NoWordIn("]");
    NoWordIn("");
    OneWord("int4");
    WriteApart("int4", '[', "]");
    assert "int4" + ['['] + "]" == "int4[]";
  }
}
