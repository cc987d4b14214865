/**
  Placeholder rewriting with replacements that hold quoted names of their own, as casts to
  `"char"` or to a mixed-case type do (src/sql.rs:264-275, src/sql.rs:288-327).

  Such a replacement is no run of plain code, so the rewritten text has spans that the
  statement has not; but they are the replacement's own, and every span of the statement
  is still there.
*/
module SqlSplice {
  import opened Wrappers
  import opened SqlLexer
  import opened SqlRewrite
  import opened SqlBinding
  import opened SqlTokens
  import opened SqlWrap
  import Decimal

  /** Two texts' pieces one after the other, a run of code that goes on from the first to
      the second being one piece. */
  function Joined(ps: seq<Piece>, qs: seq<Piece>): seq<Piece> {
    if ps == [] then qs
    else if |ps| == 1 then Prepend(ps[0].segment, ps[0].text, qs)
    else [ps[0]] + Joined(ps[1..], qs)
  }

  /** The statement's steps in order, with the pieces of its replacement in place of each
      placeholder. */
  function Spliced(s: string, f: nat -> string): seq<Piece>
    decreases |s|
  {
    if s == "" then []
    else if IsPlaceholder(s) then
      Joined(Lex(Replacement(s[..PlaceholderLen(s)], f)), Spliced(s[PlaceholderLen(s)..], f))
    else Prepend(Opening(s), s[..StepLen(s)], Spliced(s[StepLen(s)..], f))
  }

  predicate LastIsCode(ps: seq<Piece>) { ps != [] && ps[|ps| - 1].segment == Code }

  /** Text in parentheses that closes whatever it opens. */
  predicate Framed(x: string) { SafeHead(x) && x[|x| - 1] == ')' && LastIsCode(Lex(x)) }

  ghost predicate Standalone(f: nat -> string) {
    forall n :: n >= 1 ==> InertText(f(n)) || Framed(f(n))
  }

  // ----------------------------------------------------------- a framed replacement

  lemma TagStops(x: string, u: string)
    requires x != "" && x[|x| - 1] == ')' && TagLen(x, true) == 0
    ensures TagLen(x + u, true) == 0
  {
    var y := x[..|x| - 1];
    assert x == y + ")" && x + u == y + (")" + u) && y[..|y|] + ")" == x;
    if TagLen(y, true) > 0 {
      TagLenPrefix(y, true, |y|, ")");
      assert false;
    }
    TagLenAppend(y, true, ")" + u);
  }

  lemma CodeGoesOn(x: string, u: string)
    requires |x| > 1 && x[|x| - 1] == ')' && Opening(x) == Code
    ensures Opening(x + u) == Code && StepLen(x) == 1 && StepLen(x + u) == 1
  {
    assert (x + u)[1] == x[1];
    if x[0] == '$' {
      assert (x + u)[1..] == x[1..] + u;
      TagStops(x[1..], u);
    }
  }

  lemma StepGoesOn(x: string, u: string)
    requires x != "" && StepLen(x) < |x| && x[|x| - 1] == ')'
    ensures Opening(x + u) == Opening(x) && StepLen(x + u) == StepLen(x)
  {
    if Opening(x) == Code {
      CodeGoesOn(x, u);
    } else {
      var n := StepLen(x);
      var v := x[n..] + u;
      assert v[0] == x[n..][0];
      StepStable(x, v);
      assert x[..n] + v == x + u;
    }
  }

  lemma LastOfPrepend(segment: Segment, text: string, rest: seq<Piece>)
    ensures var ps := Prepend(segment, text, rest);
      LastIsCode(ps) <==> if rest == [] then segment == Code else LastIsCode(rest)
  {
  }

  lemma JoinedHead(ps: seq<Piece>, qs: seq<Piece>)
    requires ps != []
    ensures Joined(ps, qs) != [] && Joined(ps, qs)[0].segment == ps[0].segment
  {
  }

  lemma JoinedPrepend(segment: Segment, text: string, ps: seq<Piece>, qs: seq<Piece>)
    requires ps != []
    ensures Joined(Prepend(segment, text, ps), qs) == Prepend(segment, text, Joined(ps, qs))
  {
    JoinedHead(ps, qs);
    if segment == Code && ps[0].segment == Code {
      if |ps| == 1 {
        PrependTwice(text, ps[0].text, qs);
      } else {
        var p := Piece(Code, text + ps[0].text);
        assert ([p] + ps[1..])[1..] == ps[1..];
        assert ([ps[0]] + Joined(ps[1..], qs))[1..] == Joined(ps[1..], qs);
      }
    } else {
      var all := [Piece(segment, text)] + ps;
      assert all[1..] == ps;
    }
  }

  /** What follows a text that closes all it opens is lexed as if it stood alone. */
  lemma {:induction false} LexJoined(x: string, u: string)
    requires x == "" || (x[|x| - 1] == ')' && LastIsCode(Lex(x)))
    ensures Lex(x + u) == Joined(Lex(x), Lex(u))
    decreases |x|
  {
    hide Opening, StepLen, Prepend, LastIsCode;
    if x == "" {
      assert x + u == u;
    } else if StepLen(x) == |x| {
      OneByte(x, u);
    } else {
      RestCloses(x);
      LexJoined(x[StepLen(x)..], u);
      LexJoinedStep(x, u, x[..StepLen(x)], x[StepLen(x)..]);
    }
  }

  lemma LexJoinedStep(x: string, u: string, head: string, rest: string)
    requires x == head + rest && x != "" && |head| == StepLen(x) && rest != "" && x[|x| - 1] == ')'
    requires Lex(rest) != [] && Lex(rest + u) == Joined(Lex(rest), Lex(u))
    ensures Lex(x + u) == Joined(Lex(x), Lex(u))
  {
    hide Opening, StepLen, Prepend, Joined, Lex;
    StepGoesOn(x, u);
    LexStep(x, head, rest);
    assert x + u == head + (rest + u);
    LexStep(x + u, head, rest + u);
    JoinedPrepend(Opening(x), head, Lex(rest), Lex(u));
  }

  lemma RestCloses(x: string)
    requires x != "" && StepLen(x) < |x| && x[|x| - 1] == ')' && LastIsCode(Lex(x))
    ensures var rest := x[StepLen(x)..];
      rest != "" && rest[|rest| - 1] == ')' && Lex(rest) != [] && LastIsCode(Lex(rest))
  {
    hide Opening, StepLen, Prepend;
    var n := StepLen(x);
    LexStep(x, x[..n], x[n..]);
    LexNotEmpty(x[n..]);
    LastOfPrepend(Opening(x), x[..n], Lex(x[n..]));
  }

  lemma LexNotEmpty(s: string)
    ensures s != "" ==> Lex(s) != []
  {
  }

  lemma LastIsOnly(x: string)
    requires x != "" && StepLen(x) == |x| && LastIsCode(Lex(x))
    ensures Opening(x) == Code && |x| == 1
  {
    assert Lex("") == [];
    LexStep(x, x, "");
    LastOfPrepend(Opening(x), x, []);
  }

  lemma CloserIsInert(x: string)
    requires |x| == 1 && x[0] == ')'
    ensures InertText(x)
  {
  }

  lemma OneByte(x: string, u: string)
    requires x != "" && StepLen(x) == |x| && LastIsCode(Lex(x)) && x[|x| - 1] == ')'
    ensures Lex(x + u) == Joined(Lex(x), Lex(u))
  {
    hide Lex, Joined, Opening, StepLen, LastIsCode, InertText;
    LastIsOnly(x);
    CloserIsInert(x);
    InertAlone(x, u);
  }

  lemma LexOfReplacement(s: string, n: nat, f: nat -> string, u: string)
    requires Standalone(f) && IsPlaceholder(s) && n == PlaceholderLen(s)
    requires u != "" ==> !Decimal.IsDigit(u[0])
    ensures Lex(Replacement(s[..n], f) + u) == Joined(Lex(Replacement(s[..n], f)), Lex(u))
  {
    hide Lex, Joined, InertText, Framed;
    var x := Replacement(s[..n], f);
    match ParseIndex(s[..n][1..]) {
      case Some(k) =>
        assert x == f(k);
        if Framed(f(k)) {
          FramedAlone(x, u);
        } else {
          InertAlone(x, u);
        }
      case None =>
        UnboundAlone(x, u);
    }
  }

  lemma FramedAlone(x: string, u: string)
    requires Framed(x)
    ensures Lex(x + u) == Joined(Lex(x), Lex(u))
  {
    hide Lex, Joined;
    LexJoined(x, u);
  }

  lemma InertAlone(x: string, u: string)
    requires InertText(x)
    ensures Lex(x + u) == Joined(Lex(x), Lex(u))
  {
    assert x + "" == x && Lex("") == [];
    hide Lex;
    InertIsCode(x, u);
    InertIsCode(x, "");
  }

  lemma UnboundAlone(x: string, u: string)
    requires IsPlaceholder(x) && PlaceholderLen(x) == |x|
    requires u != "" ==> !Decimal.IsDigit(u[0])
    ensures Lex(x + u) == Joined(Lex(x), Lex(u))
  {
    var v := x + u;
    RunEnds(v, |x|);
    assert v[..|x|] == x && v[|x|..] == u;
    LexPlaceholder(v);
    LexPlaceholder(x);
    assert x[..|x|] == x && x[|x|..] == "" && Lex("") == [];
  }

  // ------------------------------------------------------------------- the result

  lemma Heads(f: nat -> string)
    requires Standalone(f)
    ensures SafeHeads(f)
  {
    forall n: nat | n >= 1 ensures SafeHead(f(n)) {
      assert InertText(f(n)) || Framed(f(n));
    }
  }

  /** Rewriting commutes with lexing for such replacements too: the rewritten text has the
      statement's own pieces, and the pieces of the replacements where its placeholders
      were. */
  lemma {:induction false} SpliceCommutes(s: string, f: nat -> string)
    requires Standalone(f)
    ensures Lex(Rewrite(s, f)) == Spliced(s, f)
    decreases |s|
  {
    Heads(f);
    if s == "" {
    } else if IsPlaceholder(s) {
      var n := PlaceholderLen(s);
      SpliceCommutes(s[n..], f);
      if n < |s| {
        RewriteHead(s[n..], f);
      }
      LexOfReplacement(s, n, f, Rewrite(s[n..], f));
    } else if Opening(s) == Code {
      SpliceCommutes(s[1..], f);
      CodeStaysCode(s, f);
      assert Rewrite(s, f) == s[..1] + Rewrite(s[1..], f);
      LexStep(Rewrite(s, f), s[..1], Rewrite(s[1..], f));
    } else {
      var n := StepLen(s);
      var u := Rewrite(s[n..], f);
      SpliceCommutes(s[n..], f);
      if n < |s| {
        RewriteHead(s[n..], f);
      }
      StepStable(s, u);
      assert Rewrite(s, f) == s[..n] + u;
      LexStep(Rewrite(s, f), s[..n], u);
    }
  }

  lemma {:induction false} InJoined(ps: seq<Piece>, qs: seq<Piece>, p: Piece)
    requires p in qs && p.segment != Code
    ensures p in Joined(ps, qs)
  {
    if |ps| == 1 {
      InPrepend(ps[0].segment, ps[0].text, qs, p);
    } else if |ps| > 1 {
      InJoined(ps[1..], qs, p);
    }
  }

  lemma InPrepend(segment: Segment, text: string, rest: seq<Piece>, p: Piece)
    requires p.segment != Code
    ensures p in Prepend(segment, text, rest) <==> p == Piece(segment, text) || p in rest
  {
    var ps := Prepend(segment, text, rest);
    if segment == Code && rest != [] && rest[0].segment == Code {
      assert rest == [rest[0]] + rest[1..];
    } else {
      assert Piece(segment, text) in ps;
    }
  }

  /** Every literal and comment of the statement is a piece of the rewritten text, byte for
      byte. */
  lemma LiteralKept(s: string, f: nat -> string, p: Piece)
    requires Standalone(f) && p in Lex(s) && p.segment != Code
    ensures p in Lex(Rewrite(s, f))
  {
    SpliceCommutes(s, f);
    SplicedKeeps(s, f, p);
  }

  lemma {:induction false} SplicedKeeps(s: string, f: nat -> string, p: Piece)
    requires p in Lex(s) && p.segment != Code
    ensures p in Spliced(s, f)
    decreases |s|
  {
    if s != "" {
      hide Lex, Spliced, Prepend, Joined, Opening, StepLen, IsPlaceholder, PlaceholderLen, Replacement;
      var n := if IsPlaceholder(s) then PlaceholderLen(s) else StepLen(s);
      StepKeeps(s, p);
      if p in Lex(s[n..]) {
        SplicedKeeps(s[n..], f, p);
      }
      SplicedHas(s, f, p);
    }
  }

  lemma StepKeeps(s: string, p: Piece)
    requires s != "" && p in Lex(s) && p.segment != Code
    ensures if IsPlaceholder(s) then p in Lex(s[PlaceholderLen(s)..])
      else p == Piece(Opening(s), s[..StepLen(s)]) || p in Lex(s[StepLen(s)..])
  {
    hide Lex, Prepend, Opening, StepLen, IsPlaceholder, PlaceholderLen;
    if IsPlaceholder(s) {
      var n := PlaceholderLen(s);
      LexPlaceholder(s);
      InPrepend(Code, s[..n], Lex(s[n..]), p);
    } else {
      var n := StepLen(s);
      LexStep(s, s[..n], s[n..]);
      InPrepend(Opening(s), s[..n], Lex(s[n..]), p);
    }
  }

  lemma SplicedHas(s: string, f: nat -> string, p: Piece)
    requires s != "" && p.segment != Code
    requires if IsPlaceholder(s) then p in Spliced(s[PlaceholderLen(s)..], f)
      else p == Piece(Opening(s), s[..StepLen(s)]) || p in Spliced(s[StepLen(s)..], f)
    ensures p in Spliced(s, f)
  {
    SplicedStep(s, f);
    hide Lex, Spliced, Prepend, Joined, Opening, StepLen, IsPlaceholder, PlaceholderLen, Replacement;
    if IsPlaceholder(s) {
      var n := PlaceholderLen(s);
      InJoined(Lex(Replacement(s[..n], f)), Spliced(s[n..], f), p);
    } else {
      var n := StepLen(s);
      InPrepend(Opening(s), s[..n], Spliced(s[n..], f), p);
    }
  }

  lemma SplicedStep(s: string, f: nat -> string)
    requires s != ""
    ensures Spliced(s, f) ==
      if IsPlaceholder(s)
      then Joined(Lex(Replacement(s[..PlaceholderLen(s)], f)), Spliced(s[PlaceholderLen(s)..], f))
      else Prepend(Opening(s), s[..StepLen(s)], Spliced(s[StepLen(s)..], f))
  {
  }

  // ------------------------------------------------------------------ casts to any type

  /** Type names, quoted or not, that close every quote and comment they open. */
  predicate ClosedTypes(types: seq<Option<string>>) {
    forall i :: 0 <= i < |types| && types[i].Some? ==> Closed(Lex(types[i].value))
  }

  lemma LastOfExtend(ps: seq<Piece>)
    ensures LastIsCode(Extend(ps, ")")) <==> Closed(ps)
  {
  }

  lemma CastIsFramed(n: nat, ty: string)
    requires Closed(Lex(ty))
    ensures Framed("CAST(:" + ParamName(n) + " AS " + ty + ")")
  {
    hide Lex, Closed, Extend;
    var head := "CAST(:" + ParamName(n) + " AS ";
    CastHead(n);
    WrapLexes(head, ty, ")");
    LastOfExtend(Lex(ty));
    LastOfPrepend(Code, head, Extend(Lex(ty), ")"));
    assert head + ty + ")" == "CAST(:" + ParamName(n) + " AS " + ty + ")";
  }

  lemma CastHead(n: nat)
    ensures InertText("CAST(:" + ParamName(n) + " AS ")
  {
    PlainName(n);
    PlainConcat("CAST(", ":" + ParamName(n));
    PlainConcat("CAST(" + (":" + ParamName(n)), " AS ");
    assert "CAST(" + (":" + ParamName(n)) + " AS " == "CAST(:" + ParamName(n) + " AS ";
  }

  /** Casts keep every piece of the statement, whatever the types are called, as long as
      their names close what they open. */
  lemma CastsSplice(sql: string, types: seq<Option<string>>)
    requires ClosedTypes(types)
    ensures Lex(Rewrite(sql, CastReplacement(types))) == Spliced(sql, CastReplacement(types))
  {
    var f := CastReplacement(types);
    forall n: nat | n >= 1 ensures InertText(f(n)) || Framed(f(n)) {
      match TypeFor(types, n) {
        case None => PlainName(n);
        case Some(ty) => CastIsFramed(n, ty);
      }
    }
    SpliceCommutes(sql, f);
  }
}
