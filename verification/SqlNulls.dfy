/**
  Nulls of types with quoted names put in for placeholders (src/sql.rs:277-285): text such
  as `NULL::"char"`, which ends in a quote of its own.

  Such a null keeps the spans of the statement around it unless a quoted name stands
  directly behind the placeholder: then the two quotes in a row read as one doubled quote,
  and the names run into each other.
*/
module SqlNulls {
  import opened Wrappers
  import opened SqlLexer
  import opened SqlQuotes
  import opened SqlRewrite
  import opened SqlBinding
  import opened SqlWrap
  import opened SqlSplice
  import opened SqlTokens
  import Decimal

  /** Plain code, or a quoted name that is closed. */
  predicate NamePiece(p: Piece) {
    match p.segment
    case Code => PlainText(p.text)
    case DoubleQuoted => ClosedPiece(p)
    case _ => false
  }

  predicate NamePieces(ps: seq<Piece>) { forall i :: 0 <= i < |ps| ==> NamePiece(ps[i]) }

  predicate Named(x: string) { SafeHead(x) && NamePieces(Lex(x)) }

  ghost predicate AllNamed(f: nat -> string) { forall n :: n >= 1 ==> Named(f(n)) }

  predicate EndsQuoted(x: string) { Lex(x) != [] && Lex(x)[|Lex(x)| - 1].segment == DoubleQuoted }

  /** A quote directly behind a text that ends in a quoted name. */
  predicate Collides(x: string, rest: string) { rest != "" && rest[0] == '"' && EndsQuoted(x) }

  /** No placeholder of `s` stands directly in front of a quoted name while the text put in
      for it ends in one. */
  predicate Apart(s: string, f: nat -> string)
    decreases |s|
  {
    if s == "" then true
    else if IsPlaceholder(s) then
      var n := PlaceholderLen(s);
      !Collides(Replacement(s[..n], f), s[n..]) && Apart(s[n..], f)
    else Apart(s[StepLen(s)..], f)
  }

  // ------------------------------------------------------------- the end of a quoted name

  lemma {:induction false} DoubleSame(t: string, u: string, v: string)
    requires u != "" && u[0] != '"' && (v == "" || v[0] != '"')
    requires DoubleLen(t + u) == |t|
    ensures DoubleLen(t + v) == |t|
    decreases |t|
  {
    var a, b := t + u, t + v;
    assert t == "" ==> a == u;
    if t == "" {
    } else if t[0] == '"' {
      if |t| > 1 && t[1] == '"' {
        assert a[2..] == t[2..] + u && b[2..] == t[2..] + v;
        DoubleSame(t[2..], u, v);
      }
    } else {
      assert a[1..] == t[1..] + u && b[1..] == t[1..] + v;
      DoubleSame(t[1..], u, v);
    }
  }

  lemma {:induction false} DoubleRunsInto(t: string, u: string, v: string)
    requires u != "" && u[0] != '"' && v != "" && v[0] == '"'
    requires DoubleLen(t + u) == |t|
    ensures DoubleLen(t + v) > |t|
    decreases |t|
  {
    var a, b := t + u, t + v;
    assert t == "" ==> a == u;
    if t == "" {
    } else if t[0] == '"' {
      if |t| > 1 && t[1] == '"' {
        assert a[2..] == t[2..] + u && b[2..] == t[2..] + v;
        DoubleRunsInto(t[2..], u, v);
      }
    } else {
      assert a[1..] == t[1..] + u && b[1..] == t[1..] + v;
      DoubleRunsInto(t[1..], u, v);
    }
  }

  /** A closed quoted name ends where it does unless a quote follows. */
  lemma QuotedStep(x: string, u: string)
    requires x != "" && Opening(x) == DoubleQuoted && StepLen(x) == |x| && ClosedDouble(x[1..])
    ensures Opening(x + u) == DoubleQuoted
    ensures if u != "" && u[0] == '"' then StepLen(x + u) > |x| else StepLen(x + u) == |x|
  {
    var t := x[1..];
    DoubleClosesExactly(t);
    assert (x + u)[1..] == t + u && (t + ")")[..|t|] == t;
    hide DelimLen, DoubleLen;
    if u != "" && u[0] == '"' {
      DoubleRunsInto(t, ")", u);
    } else {
      DoubleSame(t, ")", u);
    }
  }

  // ------------------------------------------------------------------ a named text

  lemma NamePrepend(segment: Segment, text: string, ps: seq<Piece>)
    ensures NamePieces(Prepend(segment, text, ps)) <==> NamePiece(Piece(segment, text)) && NamePieces(ps)
  {
    if segment == Code && ps != [] && ps[0].segment == Code {
      PlainConcat(text, ps[0].text);
      NameCons(Piece(Code, text + ps[0].text), ps[1..]);
      NameCons(ps[0], ps[1..]);
      assert ps == [ps[0]] + ps[1..];
    } else {
      NameCons(Piece(segment, text), ps);
    }
  }

  lemma NameCons(p: Piece, ps: seq<Piece>)
    ensures NamePieces([p] + ps) <==> NamePiece(p) && NamePieces(ps)
  {
    hide NamePiece;
    var all := [p] + ps;
    assert all[0] == p;
    forall i | 0 <= i < |ps| ensures NamePieces(all) ==> NamePiece(ps[i]) {
      assert all[i + 1] == ps[i];
    }
  }

  /** The first step of a named text, and the rest of it. */
  lemma NamedStep(x: string)
    requires x != "" && NamePieces(Lex(x))
    ensures NamePiece(Piece(Opening(x), x[..StepLen(x)])) && NamePieces(Lex(x[StepLen(x)..]))
    ensures StepLen(x) < |x| ==> (EndsQuoted(x) <==> EndsQuoted(x[StepLen(x)..]))
    ensures StepLen(x) == |x| ==> (EndsQuoted(x) <==> Opening(x) == DoubleQuoted)
  {
    hide Opening, StepLen, NamePiece, NamePieces, Lex, Prepend;
    var n := StepLen(x);
    LexStep(x, x[..n], x[n..]);
    LexEmptyOnly(x[n..]);
    NamePrepend(Opening(x), x[..n], Lex(x[n..]));
    LastOf(Opening(x), x[..n], Lex(x[n..]));
  }

  lemma LexEmptyOnly(s: string)
    ensures Lex(s) == [] <==> s == ""
  {
    LexNotEmpty(s);
  }

  lemma LastOf(segment: Segment, text: string, ps: seq<Piece>)
    ensures var all := Prepend(segment, text, ps);
      all != [] && all[|all| - 1].segment == if ps == [] then segment else ps[|ps| - 1].segment
  {
  }

  /** A step that is not the last one ends where it did, whatever comes behind the text. */
  lemma NamedStepStays(x: string, u: string)
    requires x != "" && NamePiece(Piece(Opening(x), x[..StepLen(x)]))
    requires StepLen(x) < |x| || Opening(x) == Code
    ensures Opening(x + u) == Opening(x) && StepLen(x + u) == StepLen(x)
  {
    var n := StepLen(x);
    if Opening(x) == Code {
      assert x[..n][0] == x[0] && (x + u)[0] == x[0];
    } else {
      var v := x[n..] + u;
      assert v[0] == x[n..][0] && x[..n] + v == x + u;
      StepStable(x, v);
    }
  }

  /** What follows a named text is lexed as if it stood alone, unless the two collide. */
  lemma {:induction false} NamedJoined(x: string, u: string)
    requires NamePieces(Lex(x)) && !Collides(x, u)
    ensures Lex(x + u) == Joined(Lex(x), Lex(u))
    decreases |x|
  {
    hide Opening, StepLen, Prepend, Lex, NamePieces, NamePiece, EndsQuoted, Collides;
    if x == "" {
      NothingJoined(u);
    } else {
      var head, rest := NamedSplit(x, u);
      hide Joined;
      if rest == "" {
        NamedLast(x, u);
      } else {
        NamedJoined(rest, u);
        StepJoined(x, u, head, rest);
      }
    }
  }

  lemma NothingJoined(u: string)
    ensures Lex("" + u) == Joined(Lex(""), Lex(u))
  {
    assert "" + u == u;
  }

  lemma NamedSplit(x: string, u: string) returns (head: string, rest: string)
    requires x != "" && NamePieces(Lex(x))
    ensures x == head + rest && |head| == StepLen(x) && NamePieces(Lex(rest))
    ensures rest == "" ==> StepLen(x) == |x| && NamePiece(Piece(Opening(x), x))
    ensures rest == "" ==> (EndsQuoted(x) <==> Opening(x) == DoubleQuoted)
    ensures rest != "" ==> Opening(x + u) == Opening(x) && StepLen(x + u) == StepLen(x)
    ensures rest != "" ==> (Collides(x, u) <==> Collides(rest, u))
  {
    hide Opening, StepLen, Lex, NamePieces, NamePiece, EndsQuoted;
    var n := StepLen(x);
    head, rest := x[..n], x[n..];
    NamedStep(x);
    if n == |x| {
      assert head == x;
    } else {
      NamedStepStays(x, u);
    }
  }

  lemma NamedLast(x: string, u: string)
    requires x != "" && StepLen(x) == |x| && NamePiece(Piece(Opening(x), x)) && !Collides(x, u)
    requires EndsQuoted(x) <==> Opening(x) == DoubleQuoted
    ensures Lex(x + u) == Joined(Lex(x), Lex(u))
  {
    assert x[..|x|] == x && Lex("") == [];
    LexStep(x, x, "");
    assert Lex(x) == [Piece(Opening(x), x)];
    if Opening(x) == Code {
      NamedStepStays(x, u);
    } else {
      QuotedStep(x, u);
    }
    LexStep(x + u, x, u);
  }

  lemma StepJoined(x: string, u: string, head: string, rest: string)
    requires x == head + rest && x != "" && |head| == StepLen(x) && rest != ""
    requires Opening(x + u) == Opening(x) && StepLen(x + u) == StepLen(x)
    requires Lex(rest + u) == Joined(Lex(rest), Lex(u))
    ensures Lex(x + u) == Joined(Lex(x), Lex(u))
  {
    hide Opening, StepLen, Prepend, Joined, Lex;
    LexNotEmpty(rest);
    LexStep(x, head, rest);
    assert x + u == head + (rest + u);
    LexStep(x + u, head, rest + u);
    JoinedPrepend(Opening(x), head, Lex(rest), Lex(u));
  }

  // ------------------------------------------------------------------- a collision

  /** The first piece is not empty. */
  predicate HeadText(ps: seq<Piece>) { ps != [] ==> ps[0].text != "" }

  lemma PrependInjective(segment: Segment, text: string, ps: seq<Piece>, qs: seq<Piece>)
    requires HeadText(ps) && HeadText(qs)
    requires Prepend(segment, text, ps) == Prepend(segment, text, qs)
    ensures ps == qs
  {
    var a, b := Prepend(segment, text, ps), Prepend(segment, text, qs);
    var mergedP := segment == Code && ps != [] && ps[0].segment == Code;
    var mergedQ := segment == Code && qs != [] && qs[0].segment == Code;
    if mergedP {
      assert a[0].text == text + ps[0].text && |a[0].text| > |text|;
      assert a[0].text[|text|..] == ps[0].text && a[1..] == ps[1..];
      assert ps == [Piece(Code, ps[0].text)] + ps[1..];
    } else {
      assert a[0].text == text && a[1..] == ps;
    }
    if mergedQ {
      assert b[0].text == text + qs[0].text && |b[0].text| > |text|;
      assert b[0].text[|text|..] == qs[0].text && b[1..] == qs[1..];
      assert qs == [Piece(Code, qs[0].text)] + qs[1..];
    } else {
      assert b[0].text == text && b[1..] == qs;
    }
  }

  lemma {:induction false} JoinedInjective(ps: seq<Piece>, as1: seq<Piece>, bs: seq<Piece>)
    requires HeadText(as1) && HeadText(bs) && Joined(ps, as1) == Joined(ps, bs)
    ensures as1 == bs
  {
    if |ps| == 1 {
      PrependInjective(ps[0].segment, ps[0].text, as1, bs);
    } else if |ps| > 1 {
      assert Joined(ps, as1)[1..] == Joined(ps[1..], as1) && Joined(ps, bs)[1..] == Joined(ps[1..], bs);
      JoinedInjective(ps[1..], as1, bs);
    }
  }

  lemma JoinedText(ps: seq<Piece>, qs: seq<Piece>)
    requires HeadText(ps) && HeadText(qs)
    ensures HeadText(Joined(ps, qs))
  {
  }

  lemma LexText(s: string)
    ensures HeadText(Lex(s))
  {
    LexHead(s);
  }

  /** Two names that run into each other are not the pieces they would be apart. */
  lemma {:induction false} NamedCollides(x: string, u: string, qs: seq<Piece>)
    requires NamePieces(Lex(x)) && Collides(x, u) && HeadText(qs)
    ensures Lex(x + u) != Joined(Lex(x), qs)
    decreases |x|
  {
    QuotedIsSome(x);
    hide Opening, StepLen, Prepend, Joined, Lex, NamePieces, NamePiece, EndsQuoted, HeadText;
    var head, rest := NamedSplit(x, u);
    if rest == "" {
      LastCollides(x, u, qs);
    } else {
      hide Collides;
      NamedCollides(rest, u, qs);
      StepCollides(x, u, head, rest, qs);
    }
  }

  lemma QuotedIsSome(x: string)
    requires EndsQuoted(x)
    ensures x != ""
  {
  }

  lemma LastCollides(x: string, u: string, qs: seq<Piece>)
    requires x != "" && StepLen(x) == |x| && NamePiece(Piece(Opening(x), x)) && Opening(x) == DoubleQuoted
    requires u != "" && u[0] == '"'
    ensures Lex(x + u) != Joined(Lex(x), qs)
  {
    assert x[..|x|] == x && Lex("") == [];
    LexStep(x, x, "");
    assert Lex(x) == [Piece(DoubleQuoted, x)];
    QuotedStep(x, u);
    var m := StepLen(x + u);
    hide Opening, StepLen;
    LexStep(x + u, (x + u)[..m], (x + u)[m..]);
    assert Lex(x + u)[0].text == (x + u)[..m] && Joined(Lex(x), qs)[0].text == x;
  }

  lemma StepCollides(x: string, u: string, head: string, rest: string, qs: seq<Piece>)
    requires x == head + rest && x != "" && |head| == StepLen(x) && rest != ""
    requires Opening(x + u) == Opening(x) && StepLen(x + u) == StepLen(x)
    requires Lex(rest + u) != Joined(Lex(rest), qs) && HeadText(qs)
    ensures Lex(x + u) != Joined(Lex(x), qs)
  {
    hide Opening, StepLen, Prepend, Joined, Lex, HeadText;
    LexNotEmpty(rest);
    LexStep(x, head, rest);
    assert x + u == head + (rest + u);
    LexStep(x + u, head, rest + u);
    JoinedPrepend(Opening(x), head, Lex(rest), qs);
    LexText(rest);
    LexText(rest + u);
    JoinedText(Lex(rest), qs);
    if Lex(x + u) == Joined(Lex(x), qs) {
      PrependInjective(Opening(x), head, Lex(rest + u), Joined(Lex(rest), qs));
    }
  }

  // ------------------------------------------------------------------- the result

  lemma NamedHeads(f: nat -> string)
    requires AllNamed(f)
    ensures SafeHeads(f)
  {
    forall n: nat | n >= 1 ensures SafeHead(f(n)) {
      assert Named(f(n));
    }
  }

  lemma {:induction false} SplicedText(s: string, f: nat -> string)
    requires AllNamed(f)
    ensures HeadText(Spliced(s, f))
    decreases |s|
  {
    if s != "" {
      SplicedStep(s, f);
      hide Spliced, Joined, Lex, Opening, StepLen, IsPlaceholder, PlaceholderLen, Replacement;
      if IsPlaceholder(s) {
        var n := PlaceholderLen(s);
        SplicedText(s[n..], f);
        LexText(Replacement(s[..n], f));
        JoinedText(Lex(Replacement(s[..n], f)), Spliced(s[n..], f));
      } else {
        var n := StepLen(s);
        assert s[..n] != "";
      }
    }
  }

  /** The head of what follows a placeholder is a quote exactly if it was one before. */
  lemma QuoteStays(rest: string, f: nat -> string)
    requires AllNamed(f)
    ensures var u := Rewrite(rest, f); (u != "" && u[0] == '"') <==> (rest != "" && rest[0] == '"')
  {
    NamedHeads(f);
    if rest != "" {
      RewriteHead(rest, f);
    }
  }

  lemma ReplacementParts(s: string, n: nat, f: nat -> string)
    requires AllNamed(f) && IsPlaceholder(s) && n == PlaceholderLen(s)
    ensures var x := Replacement(s[..n], f);
      if ParseIndex(s[..n][1..]).Some? then NamePieces(Lex(x))
      else IsPlaceholder(x) && PlaceholderLen(x) == |x| && !EndsQuoted(x)
    ensures n < |s| ==> !Decimal.IsDigit(s[n])
  {
    var p := s[..n];
    match ParseIndex(p[1..]) {
      case Some(k) => assert Named(f(k));
      case None =>
        RunEnds(p, n);
        LexPlaceholder(p);
        assert p[..n] == p && p[n..] == "" && Lex("") == [];
    }
  }

  /** What follows a placeholder does not open with a digit, rewritten or not. */
  lemma DigitStays(rest: string, f: nat -> string)
    requires AllNamed(f) && (rest == "" || !Decimal.IsDigit(rest[0]))
    ensures var u := Rewrite(rest, f); u == "" || !Decimal.IsDigit(u[0])
  {
    NamedHeads(f);
    if rest != "" {
      RewriteHead(rest, f);
    }
  }

  /** The first step of a text ends where it did when what follows is rewritten. */
  lemma StepSurvives(s: string, f: nat -> string)
    requires AllNamed(f) && s != "" && !IsPlaceholder(s)
    ensures Rewrite(s, f) != "" && Opening(Rewrite(s, f)) == Opening(s) && StepLen(Rewrite(s, f)) == StepLen(s)
  {
    NamedHeads(f);
    var n := StepLen(s);
    var u := Rewrite(s[n..], f);
    assert Rewrite(s, f) == s[..n] + u;
    if Opening(s) == Code {
      CodeStaysCode(s, f);
    } else {
      if n < |s| {
        RewriteHead(s[n..], f);
      }
      StepStable(s, u);
    }
  }

  lemma OneReplacement(s: string, n: nat, f: nat -> string)
    requires AllNamed(f) && IsPlaceholder(s) && n == PlaceholderLen(s)
    requires Lex(Rewrite(s[n..], f)) == Spliced(s[n..], f) <==> Apart(s[n..], f)
    ensures Lex(Rewrite(s, f)) == Spliced(s, f) <==> Apart(s, f)
  {
    hide Spliced, Joined, Lex, Rewrite, Apart, EndsQuoted, NamePieces, HeadText, Replacement, IsPlaceholder,
      PlaceholderLen, Prepend;
    var x, rest := Replacement(s[..n], f), s[n..];
    var u := Rewrite(rest, f);
    ReplacementUnfolds(s, f);
    ReplacementParts(s, n, f);
    QuoteStays(rest, f);
    DigitStays(rest, f);
    LexText(u);
    SplicedText(rest, f);
    if ParseIndex(s[..n][1..]).None? {
      UnboundAlone(x, u);
    }
    if Collides(x, rest) {
      NamedCollides(x, u, Spliced(rest, f));
    } else {
      if NamePieces(Lex(x)) {
        NamedJoined(x, u);
      }
      if Joined(Lex(x), Lex(u)) == Joined(Lex(x), Spliced(rest, f)) {
        JoinedInjective(Lex(x), Lex(u), Spliced(rest, f));
      }
    }
  }

  lemma ReplacementUnfolds(s: string, f: nat -> string)
    requires IsPlaceholder(s)
    ensures var n := PlaceholderLen(s);
      var x, rest := Replacement(s[..n], f), s[n..];
      && Rewrite(s, f) == x + Rewrite(rest, f)
      && Spliced(s, f) == Joined(Lex(x), Spliced(rest, f))
      && (Apart(s, f) <==> !Collides(x, rest) && Apart(rest, f))
  {
  }

  lemma OneStep(s: string, f: nat -> string)
    requires AllNamed(f) && s != "" && !IsPlaceholder(s)
    requires var rest := s[StepLen(s)..]; Lex(Rewrite(rest, f)) == Spliced(rest, f) <==> Apart(rest, f)
    ensures Lex(Rewrite(s, f)) == Spliced(s, f) <==> Apart(s, f)
  {
    var n := StepLen(s);
    var rest := s[n..];
    var u := Rewrite(rest, f);
    assert Rewrite(s, f) == s[..n] + u;
    SplicedStep(s, f);
    assert Apart(s, f) <==> Apart(rest, f);
    StepSurvives(s, f);
    LexStep(Rewrite(s, f), s[..n], u);
    SplicedText(rest, f);
    LexText(u);
    hide Spliced, Lex, Rewrite, Apart, Opening, StepLen, Prepend, HeadText, IsPlaceholder;
    if Lex(Rewrite(s, f)) == Spliced(s, f) {
      PrependInjective(Opening(s), s[..n], Lex(u), Spliced(rest, f));
    }
  }

  /** With named replacements the rewritten text has the statement's own pieces, and the
      pieces of the replacements where its placeholders were, if and only if no
      replacement that ends in a quoted name meets a quote behind its placeholder. */
  lemma {:induction false} SpliceExactly(s: string, f: nat -> string)
    requires AllNamed(f)
    ensures Lex(Rewrite(s, f)) == Spliced(s, f) <==> Apart(s, f)
    decreases |s|
  {
    hide Apart, Spliced, Lex, Rewrite, Opening, StepLen, IsPlaceholder, PlaceholderLen, AllNamed;
    if s == "" {
      NothingSpliced(f);
    } else if IsPlaceholder(s) {
      SpliceExactly(s[PlaceholderLen(s)..], f);
      OneReplacement(s, PlaceholderLen(s), f);
    } else {
      SpliceExactly(s[StepLen(s)..], f);
      OneStep(s, f);
    }
  }

  lemma NothingSpliced(f: nat -> string)
    ensures Lex(Rewrite("", f)) == Spliced("", f) && Apart("", f)
  {
  }

  // -------------------------------------------------------------------- typed nulls

  /** Type names made of plain code and closed quoted names, as the server reports them. */
  predicate NamedTypes(types: seq<Option<string>>) {
    forall i :: 0 <= i < |types| && types[i].Some? ==> NamePieces(Lex(types[i].value))
  }

  lemma NullIsNamed(ty: string)
    requires NamePieces(Lex(ty))
    ensures Named("NULL::" + ty)
  {
    hide Lex;
    InertIsCode("NULL::", ty);
    NamePrepend(Code, "NULL::", Lex(ty));
  }

  lemma InertIsNamed(x: string)
    requires InertText(x)
    ensures Named(x)
  {
    assert x + "" == x && Lex("") == [];
    hide Lex;
    InertIsCode(x, "");
  }

  lemma NullsAreNamed(types: seq<Option<string>>)
    requires NamedTypes(types)
    ensures AllNamed(NullReplacement(types))
  {
    hide Named, NamePieces, Lex;
    forall n: nat | n >= 1 ensures Named(NullReplacement(types)(n)) {
      match TypeFor(types, n) {
        case None => InertIsNamed("NULL");
        case Some(ty) =>
          assert types[n - 1] == Some(ty);
          NullIsNamed(ty);
      }
    }
  }

  /** Typed nulls keep every piece of the statement, quoted type names or not, exactly if
      no quoted name stands directly behind a placeholder whose type ends in one. */
  lemma NullsSplice(sql: string, types: seq<Option<string>>)
    requires NamedTypes(types)
    ensures var f := NullReplacement(types); Lex(Rewrite(sql, f)) == Spliced(sql, f) <==> Apart(sql, f)
  {
    NullsAreNamed(types);
    SpliceExactly(sql, NullReplacement(types));
  }

  // ------------------------------------------------------------ how the last piece ends

  lemma ClosedPrepend(segment: Segment, text: string, ps: seq<Piece>)
    ensures Closed(Prepend(segment, text, ps)) <==>
      if ps == [] then ClosedPiece(Piece(segment, text)) else Closed(ps)
  {
    CodeIsClosed(Piece(Code, text));
    if ps != [] {
      CodeIsClosed(Piece(Code, text + ps[0].text));
      CodeIsClosed(Piece(Code, ps[0].text));
    }
  }

  lemma CodeIsClosed(p: Piece)
    requires p.segment == Code
    ensures ClosedPiece(p)
  {
  }

  lemma {:induction false} ClosedJoined(ps: seq<Piece>, qs: seq<Piece>)
    ensures Closed(Joined(ps, qs)) <==> if qs == [] then Closed(ps) else Closed(qs)
  {
    hide ClosedPiece;
    if |ps| == 1 {
      ClosedPrepend(ps[0].segment, ps[0].text, qs);
    } else if |ps| > 1 {
      ClosedJoined(ps[1..], qs);
      JoinedHead(ps[1..], qs);
    }
  }

  lemma NamedIsClosed(ps: seq<Piece>)
    requires NamePieces(ps)
    ensures Closed(ps)
  {
    if ps != [] {
      assert NamePiece(ps[|ps| - 1]);
    }
  }

  lemma ReplacementIsClosed(s: string, n: nat, f: nat -> string)
    requires AllNamed(f) && IsPlaceholder(s) && n == PlaceholderLen(s)
    ensures Closed(Lex(Replacement(s[..n], f)))
  {
    ReplacementParts(s, n, f);
    var x := Replacement(s[..n], f);
    if ParseIndex(s[..n][1..]).Some? {
      NamedIsClosed(Lex(x));
    } else {
      LexPlaceholder(x);
      assert x[..|x|] == x && x[|x|..] == "" && Lex("") == [];
    }
  }

  lemma SplicedEmpty(s: string, f: nat -> string)
    requires AllNamed(f)
    ensures Spliced(s, f) == [] <==> s == ""
  {
    if s != "" && IsPlaceholder(s) {
      var n := PlaceholderLen(s);
      ReplacementSome(s, n, f);
      JoinedHead(Lex(Replacement(s[..n], f)), Spliced(s[n..], f));
    }
  }

  lemma ReplacementSome(s: string, n: nat, f: nat -> string)
    requires AllNamed(f) && IsPlaceholder(s) && n == PlaceholderLen(s)
    ensures Lex(Replacement(s[..n], f)) != []
  {
    var x := Replacement(s[..n], f);
    match ParseIndex(s[..n][1..]) {
      case Some(k) => assert Named(f(k));
      case None =>
    }
    LexNotEmpty(x);
  }

  /** Nulls leave a closed statement closed, and one that is not as it was. */
  lemma {:induction false} SplicedClosed(s: string, f: nat -> string)
    requires AllNamed(f)
    ensures Closed(Spliced(s, f)) <==> Closed(Lex(s))
    decreases |s|
  {
    hide Spliced, Lex, Closed, Opening, StepLen, IsPlaceholder, PlaceholderLen, AllNamed;
    if s == "" {
      NothingClosed(f);
    } else if IsPlaceholder(s) {
      SplicedClosed(s[PlaceholderLen(s)..], f);
      ClosedBehindNull(s, PlaceholderLen(s), f);
    } else {
      SplicedClosed(s[StepLen(s)..], f);
      ClosedBehindStep(s, StepLen(s), f);
    }
  }

  lemma NothingClosed(f: nat -> string)
    ensures Closed(Spliced("", f)) && Closed(Lex(""))
  {
  }

  lemma ClosedBehindNull(s: string, n: nat, f: nat -> string)
    requires AllNamed(f) && IsPlaceholder(s) && n == PlaceholderLen(s)
    requires Closed(Spliced(s[n..], f)) <==> Closed(Lex(s[n..]))
    ensures Closed(Spliced(s, f)) <==> Closed(Lex(s))
  {
    hide Joined, Lex, Closed, Prepend, Replacement, IsPlaceholder, PlaceholderLen, AllNamed, Apart, Rewrite, Spliced;
    var x, rest := Replacement(s[..n], f), s[n..];
    ReplacementUnfolds(s, f);
    LexPlaceholder(s);
    SplicedEmpty(rest, f);
    LexEmptyOnly(rest);
    ReplacementIsClosed(s, n, f);
    ClosedJoined(Lex(x), Spliced(rest, f));
    ClosedPrepend(Code, s[..n], Lex(rest));
    CodeIsClosed(Piece(Code, s[..n]));
  }

  lemma ClosedBehindStep(s: string, n: nat, f: nat -> string)
    requires AllNamed(f) && s != "" && !IsPlaceholder(s) && n == StepLen(s)
    requires Closed(Spliced(s[n..], f)) <==> Closed(Lex(s[n..]))
    ensures Closed(Spliced(s, f)) <==> Closed(Lex(s))
  {
    SplicedStep(s, f);
    hide Joined, Lex, Closed, Prepend, Opening, StepLen, IsPlaceholder, PlaceholderLen, AllNamed, Spliced;
    var head, rest := s[..n], s[n..];
    LexStep(s, head, rest);
    SplicedEmpty(rest, f);
    LexEmptyOnly(rest);
    ClosedPrepend(Opening(s), head, Spliced(rest, f));
    ClosedPrepend(Opening(s), head, Lex(rest));
  }

  // -------------------------------------------------------------------- an example

  lemma {:induction false} ApartBehind(w: string, t: string, f: nat -> string)
    requires PlainText(w)
    ensures Apart(w + t, f) == Apart(t, f)
    decreases |w|
  {
    if w == "" {
      assert w + t == t;
    } else {
      assert (w + t)[0] == w[0] && (w + t)[1..] == w[1..] + t;
      assert PlainText(w[1..]);
      ApartBehind(w[1..], t, f);
    }
  }

  lemma OneIndex()
    ensures IsPlaceholder("$1") && PlaceholderLen("$1") == 2 && ParseIndex("$1"[1..]) == Some(1)
  {
    assert "$1"[1..] == "1" && "1"[..0] == "";
    assert Decimal.FromDigits("1") == 1;
    RunEnds("$1", 2);
  }

  lemma CharType()
    ensures Lex("\"char\"") == [Piece(DoubleQuoted, "\"char\"")]
    ensures NamePieces(Lex("\"char\"")) && EndsQuoted("NULL::" + "\"char\"")
  {
    hide Lex, Quote, Double, InertText;
    CharQuoted();
    CharIsClosed();
    QuoteRoundTrip("char");
    InertIsCode("NULL::", "\"char\"");
  }

  lemma CharQuoted()
    ensures Quote("char") == "\"char\"" && InertText("NULL::")
  {
    NothingDoubled("char");
  }

  lemma {:induction false} NothingDoubled(t: string)
    requires '"' !in t
    ensures Double(t) == t
  {
    if t != "" {
      NothingDoubled(t[1..]);
    }
  }

  lemma CharIsClosed()
    ensures ClosedPiece(Piece(DoubleQuoted, "\"char\""))
  {
    assert "\"char\""[1..] == "char\"";
    TrailingRunIs("char\"", '"', 1);
  }

  /** A column named in quotes directly behind a placeholder of type `"char"`: the null's
      type and the column's name run into each other. */
  lemma RunsIntoExample()
    ensures var sql, f := "SELECT $1\"x\"", NullReplacement([Some("\"char\"")]);
      NamedTypes([Some("\"char\"")]) && !Apart(sql, f) && Lex(Rewrite(sql, f)) != Spliced(sql, f)
  {
    hide Lex, NamePieces, EndsQuoted, Apart, Rewrite, Spliced;
    var types := [Some("\"char\"")];
    CharType();
    ApartBehind("SELECT ", "$1\"x\"", NullReplacement(types));
    assert "SELECT " + "$1\"x\"" == "SELECT $1\"x\"";
    CharCollides();
    NullsSplice("SELECT $1\"x\"", types);
  }

  lemma CharCollides()
    ensures !Apart("$1\"x\"", NullReplacement([Some("\"char\"")]))
  {
    hide Lex, EndsQuoted;
    var s, f := "$1\"x\"", NullReplacement([Some("\"char\"")]);
    OneIndex();
    CharType();
    RunEnds(s, 2);
    assert s[..2] == "$1" && s[2..] == "\"x\"";
    assert f(1) == "NULL::" + "\"char\"";
    assert Replacement("$1", f) == f(1);
  }
}
