/**
  The text of the probe's shape query, src/probe.rs:301-315: the statement with a null
  for every placeholder, wrapped so that it returns no rows.
*/
module ProbeWrap {
  import opened Wrappers
  import opened SqlBinding
  import opened SqlNulls
  import opened SqlSplice
  import opened SqlLexer
  import opened SqlRewrite
  import opened SqlTokens
  import opened SqlWords
  import opened SqlWrap
  import opened SqlWrites
  import opened Probe

  const PREFIX := "SELECT * FROM ("
  const SUFFIX := ") AS dapi_shape WHERE false"

  lemma TextsPlain()
    ensures InertText(PREFIX) && Closer(SUFFIX)
  {
  }

  lemma PrefixHarmless()
    ensures MissesKeywords("SELECT * FROM ") && PREFIX == "SELECT * FROM " + "("
  {
    assert Avoids("SELECT * FROM ", {'D', 'd'}) && Avoids("SELECT * FROM ", {'G', 'g'});
  }

  lemma SuffixHarmless()
    ensures MissesKeywords(" AS dapi_shape WHERE false")
  {
    assert Avoids(" AS dapi_shape WHERE false", {'T', 't'}) && Avoids(" AS dapi_shape WHERE false", {'G', 'g'});
  }

  lemma SuffixSplit()
    ensures SUFFIX == ")" + " AS dapi_shape WHERE false"
  {
  }

  /** The shape query lexes as the wrap around the statement's own pieces, a null in
      place of each placeholder. */
  lemma ShapeQueryLexes(sql: string, types: seq<Option<string>>)
    requires PlainTypes(types)
    ensures Lex(ShapeQuery(sql, types)) ==
      Prepend(Code, PREFIX, Extend(RewritePieces(Lex(sql), NullReplacement(types)), SUFFIX))
  {
    hide Lex, Extend, Prepend, Rewrite, NullReplacement, InertText, Closer, RewritePieces;
    TextsPlain();
    NullsCommute(sql, types);
    WrapLexes(PREFIX, Rewrite(sql, NullReplacement(types)), SUFFIX);
  }

  /** `WHERE false` is code, so that no row can come back, exactly if the statement ends
      in code or in a literal or comment that is closed. */
  lemma NoRowsExactly(sql: string, types: seq<Option<string>>)
    requires PlainTypes(types)
    ensures var ps := Lex(ShapeQuery(sql, types));
      ps != [] && (EndsInCode(ps, "WHERE false") <==> Closed(Lex(sql)))
  {
    hide Lex, Rewrite, NullReplacement;
    ShapeQueryLexes(sql, types);
    var ps := RewritePieces(Lex(sql), NullReplacement(types));
    SuffixPlace(ps);
    ClosedRewritten(Lex(sql), NullReplacement(types));
    LastPrepended(PREFIX, Extend(ps, SUFFIX));
  }

  /** The same for types with quoted names, exactly where the nulls do not run into a
      quoted name behind their placeholder. */
  lemma ShapeQuerySplices(sql: string, types: seq<Option<string>>)
    requires NamedTypes(types) && Apart(sql, NullReplacement(types))
    ensures Lex(ShapeQuery(sql, types)) ==
      Prepend(Code, PREFIX, Extend(Spliced(sql, NullReplacement(types)), SUFFIX))
  {
    hide Lex, Extend, Prepend, Rewrite, NullReplacement, InertText, Closer, Spliced, Apart, NamedTypes;
    TextsPlain();
    NullsSplice(sql, types);
    WrapLexes(PREFIX, Rewrite(sql, NullReplacement(types)), SUFFIX);
  }

  lemma NoRowsNamed(sql: string, types: seq<Option<string>>)
    requires NamedTypes(types) && Apart(sql, NullReplacement(types))
    ensures var ps := Lex(ShapeQuery(sql, types));
      ps != [] && (EndsInCode(ps, "WHERE false") <==> Closed(Lex(sql)))
  {
    hide Lex, Rewrite, NullReplacement, Spliced, Apart, NamedTypes, AllNamed;
    ShapeQuerySplices(sql, types);
    NullsAreNamed(types);
    var ps := Spliced(sql, NullReplacement(types));
    SuffixPlace(ps);
    SplicedClosed(sql, NullReplacement(types));
    LastPrepended(PREFIX, Extend(ps, SUFFIX));
  }

  /** The last piece is code and ends in `end`. */
  predicate EndsInCode(ps: seq<Piece>, end: string) {
    ps != [] && ps[|ps| - 1].segment == Code && EndsIn(ps[|ps| - 1].text, end)
  }

  lemma SuffixPlace(ps: seq<Piece>)
    ensures EndsInCode(Extend(ps, SUFFIX), "WHERE false") <==> Closed(ps)
  {
    hide ClosedPiece;
    SuffixEnds();
    if ps != [] && ps[|ps| - 1].segment == Code {
      StillEnds(ps[|ps| - 1].text, SUFFIX, "WHERE false");
      CodeIsClosed(ps[|ps| - 1]);
    }
  }

  lemma SuffixEnds()
    ensures EndsIn(SUFFIX, "WHERE false")
  {
  }

  lemma StillEnds(a: string, b: string, end: string)
    requires EndsIn(b, end)
    ensures EndsIn(a + b, end)
  {
    assert (a + b)[|a + b| - |end|..] == b[|b| - |end|..];
  }

  lemma ClosedRewritten(ps: seq<Piece>, f: nat -> string)
    ensures Closed(RewritePieces(ps, f)) <==> Closed(ps)
  {
  }

  lemma LastPrepended(code: string, ps: seq<Piece>)
    requires ps != []
    ensures EndsInCode(ps, "WHERE false") ==> EndsInCode(Prepend(Code, code, ps), "WHERE false")
    ensures Prepend(Code, code, ps)[|Prepend(Code, code, ps)| - 1].segment == ps[|ps| - 1].segment
  {
    if ps[0].segment == Code && |ps| == 1 && EndsIn(ps[0].text, "WHERE false") {
      StillEnds(code, ps[0].text, "WHERE false");
    }
  }

  /** The shape query holds a write keyword in code exactly if the statement does, nulls
      put in. */
  lemma ShapeQueryWrites(sql: string, types: seq<Option<string>>)
    ensures ModifiesData(ShapeQuery(sql, types)) <==> ModifiesData(Rewrite(sql, NullReplacement(types)))
  {
    hide Lex, Extend, Prepend, CodeWords, MissesKeywords, InertText, Closer, HasWriteWord, Rewrite, NullReplacement;
    PrefixHarmless();
    SuffixHarmless();
    SuffixSplit();
    TextsPlain();
    var s := Rewrite(sql, NullReplacement(types));
    WrapLexes(PREFIX, s, SUFFIX);
    WrapWritesNothing("SELECT * FROM ", s, " AS dapi_shape WHERE false");
  }
}
