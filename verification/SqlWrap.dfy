/**
  Statements wrapped in a subquery, as src/probe.rs:310 and src/handlers.rs:339 do.

  The closing parenthesis is code only when the statement's last span is closed;
  otherwise an unterminated literal or a trailing line comment runs on through it.
*/
module SqlWrap {
  import opened SqlLexer
  import opened SqlQuotes
  import opened SqlRewrite
  import opened SqlTokens
  import opened SqlWords

  /** The closing parenthesis and what follows it, free of every byte that could
      open or close anything. */
  predicate Closer(u: string) {
    u != "" && u[0] == ')' && forall i :: 0 <= i < |u| ==> u[i] !in {'\'', '"', '$', '-', '/', '\\', '\n'}
  }

  /** The comment depth a text leaves behind, from `depth` on. */
  function DepthAfter(s: string, depth: nat): nat
    decreases |s|
  {
    if s == "" || depth == 0 then depth
    else DepthAfter(s[BlockMove(s, depth).0..], BlockMove(s, depth).1)
  }

  predicate EndsIn(s: string, end: string) { |end| <= |s| && s[|s| - |end|..] == end }

  /** The piece ends by itself: a quoted one in its own terminator, a block comment back
      at depth 0. A line comment never does, as long as no newline follows. */
  predicate ClosedPiece(p: Piece) {
    match p.segment
    case Code => true
    case LineComment => false
    case SingleQuoted => p.text != "" && ClosedSingle(p.text[1..])
    case DoubleQuoted => p.text != "" && ClosedDouble(p.text[1..])
    case DollarQuoted =>
      && p.text != "" && p.text[0] == '$'
      && var d := DelimLen(p.text); d > 0 && EndsIn(p.text[d..], p.text[..d])
    case BlockComment => |p.text| >= 2 && DepthAfter(p.text[2..], 1) == 0
  }

  predicate Closed(ps: seq<Piece>) { ps == [] || ClosedPiece(ps[|ps| - 1]) }

  /** The pieces of a text once code `u` is put after it. */
  function Extend(ps: seq<Piece>, u: string): seq<Piece> {
    if ps != [] && (ps[|ps| - 1].segment == Code || !Closed(ps))
    then ps[..|ps| - 1] + [Piece(ps[|ps| - 1].segment, ps[|ps| - 1].text + u)]
    else ps + [Piece(Code, u)]
  }

  // ------------------------------------------------- literals that reach the end

  /** Code put after `s` is not taken into it. */
  predicate ClosedStep(s: string)
    requires s != ""
  {
    StepLen(s + ")") == |s|
  }

  lemma {:induction false} SingleRunsOn(u: string)
    requires forall i :: 0 <= i < |u| ==> u[i] !in {'\'', '\\'}
    ensures SingleLen(u) == |u|
  {
    if u != "" {
      SingleRunsOn(u[1..]);
    }
  }

  lemma {:induction false} SingleExtends(s: string, u: string)
    requires Closer(u) && SingleLen(s) == |s|
    ensures SingleLen(s + u) == if SingleLen(s + ")") == |s| then |s| else |s + u|
    decreases |s|
  {
    var v, w := s + u, s + ")";
    if s == "" {
      assert v == u && w == ")";
      SingleRunsOn(u);
      SingleRunsOn(")");
    } else if s == "\\" {
      assert v[2..] == u[1..] && w[2..] == "";
      SingleRunsOn(u[1..]);
    } else if s[0] == '\\' || (s[0] == '\'' && |s| > 1 && s[1] == '\'') {
      SingleExtends(s[2..], u);
      assert v[2..] == s[2..] + u && w[2..] == s[2..] + ")";
    } else if s[0] != '\'' {
      SingleExtends(s[1..], u);
      assert v[1..] == s[1..] + u && w[1..] == s[1..] + ")";
    }
  }

  lemma {:induction false} DoubleRunsOn(u: string)
    requires forall i :: 0 <= i < |u| ==> u[i] != '"'
    ensures DoubleLen(u) == |u|
  {
    if u != "" {
      DoubleRunsOn(u[1..]);
    }
  }

  lemma {:induction false} DoubleExtends(s: string, u: string)
    requires Closer(u) && DoubleLen(s) == |s|
    ensures DoubleLen(s + u) == if DoubleLen(s + ")") == |s| then |s| else |s + u|
    decreases |s|
  {
    var v, w := s + u, s + ")";
    if s == "" {
      assert v == u && w == ")";
      DoubleRunsOn(u);
      DoubleRunsOn(")");
    } else if s[0] == '"' && |s| > 1 && s[1] == '"' {
      DoubleExtends(s[2..], u);
      assert v[2..] == s[2..] + u && w[2..] == s[2..] + ")";
    } else if s[0] != '"' {
      DoubleExtends(s[1..], u);
      assert v[1..] == s[1..] + u && w[1..] == s[1..] + ")";
    }
  }

  predicate IsDelim(delim: string) { |delim| >= 2 && delim[0] == '$' && delim[|delim| - 1] == '$' }

  lemma {:induction false} DollarRunsOn(u: string, delim: string)
    requires IsDelim(delim) && forall i :: 0 <= i < |u| ==> u[i] != '$'
    ensures DollarLen(u, delim) == |u|
  {
    if u != "" {
      DollarRunsOn(u[1..], delim);
    }
  }

  lemma {:induction false} DollarExtends(s: string, delim: string, u: string)
    requires Closer(u) && IsDelim(delim) && DollarLen(s, delim) == |s|
    ensures DollarLen(s + u, delim) == if DollarLen(s + ")", delim) == |s| then |s| else |s + u|
  {
    var v, w := s + u, s + ")";
    if s == "" {
      assert v == u && w == ")";
      DollarRunsOn(u, delim);
      DollarRunsOn(")", delim);
    } else if delim <= s {
      assert delim <= v && delim <= w;
    } else {
      NoDelimAcross(s, delim, u);
      NoDelimAcross(s, delim, ")");
      DollarExtends(s[1..], delim, u);
      assert v[1..] == s[1..] + u && w[1..] == s[1..] + ")";
    }
  }

  lemma NoDelimAcross(s: string, delim: string, u: string)
    requires Closer(u) && IsDelim(delim) && s != "" && !(delim <= s)
    ensures !(delim <= s + u)
  {
    var n := |delim|;
    if n <= |s| {
      assert (s + u)[..n] == s[..n];
    } else if n <= |s + u| {
      assert (s + u)[n - 1] == u[n - 1 - |s|];
    }
  }

  lemma {:induction false} LineExtends(s: string, u: string)
    requires Closer(u) && LineLen(s) == |s|
    ensures LineLen(s + u) == |s + u|
  {
    if s == "" {
      LineRunsOn(u);
      assert s + u == u;
    } else {
      LineExtends(s[1..], u);
      assert (s + u)[1..] == s[1..] + u;
    }
  }

  lemma {:induction false} LineRunsOn(u: string)
    requires forall i :: 0 <= i < |u| ==> u[i] != '\n'
    ensures LineLen(u) == |u|
  {
    if u != "" {
      LineRunsOn(u[1..]);
    }
  }

  lemma {:induction false} BlockRunsOn(u: string, depth: nat)
    requires depth > 0 && forall i :: 0 <= i < |u| ==> u[i] != '/'
    ensures BlockLen(u, depth) == |u|
  {
    if u != "" {
      assert !("/*" <= u) && !("*/" <= u) by {
        assert u[0] != '/' && (|u| > 1 ==> u[1] != '/');
      }
      BlockRunsOn(u[1..], depth);
    }
  }

  lemma {:induction false} BlockExtends(s: string, depth: nat, u: string)
    requires Closer(u) && BlockLen(s, depth) == |s|
    ensures BlockLen(s + u, depth) == if BlockLen(s + ")", depth) == |s| then |s| else |s + u|
    decreases |s|
  {
    if s == "" {
      BlockExtendsNothing(depth, u);
    } else {
      var k, d := BlockMove(s, depth).0, BlockMove(s, depth).1;
      BlockMoveBefore(s, depth, u);
      BlockMoveBefore(s, depth, ")");
      BlockExtends(s[k..], d, u);
      BlockExtendsStep(s, depth, u, k, d);
    }
  }

  lemma BlockExtendsStep(s: string, depth: nat, u: string, k: nat, d: nat)
    requires s != "" && depth > 0 && BlockMove(s, depth) == (k, d)
    requires BlockMove(s + u, depth) == (k, d) && BlockMove(s + ")", depth) == (k, d)
    requires BlockLen(s[k..] + u, d) == if BlockLen(s[k..] + ")", d) == |s| - k then |s| - k else |s| - k + |u|
    ensures BlockLen(s + u, depth) == if BlockLen(s + ")", depth) == |s| then |s| else |s + u|
  {
    hide BlockLen;
    assert (s + u)[k..] == s[k..] + u && (s + ")")[k..] == s[k..] + ")";
  }

  lemma BlockExtendsNothing(depth: nat, u: string)
    requires Closer(u)
    ensures BlockLen("" + u, depth) == if BlockLen("" + ")", depth) == 0 then 0 else |u|
  {
    assert "" + u == u && "" + ")" == ")";
    if depth > 0 {
      BlockRunsOn(u, depth);
      BlockRunsOn(")", depth);
    }
  }

  lemma BlockMoveBefore(s: string, depth: nat, u: string)
    requires Closer(u) && s != "" && depth > 0
    ensures BlockMove(s + u, depth) == BlockMove(s, depth)
  {
    var v := s + u;
    if |s| > 1 {
      BlockMoveLocal(s, v, depth);
    } else {
      assert v[1] == ')';
    }
  }

  /** A literal or comment at the end of a text closes there, or swallows all of
      what is put after it. */
  lemma StepExtends(s: string, u: string)
    requires Closer(u) && s != "" && Opening(s) != Code && StepLen(s) == |s|
    ensures Opening(s + u) == Opening(s)
    ensures StepLen(s + u) == if ClosedStep(s) then |s| else |s + u|
  {
    hide DelimLen, SingleLen, DoubleLen, DollarLen, LineLen, BlockLen;
    assert (s + u)[1..] == s[1..] + u && (s + ")")[1..] == s[1..] + ")";
    match Opening(s) {
      case SingleQuoted => SingleExtends(s[1..], u);
      case DoubleQuoted => DoubleExtends(s[1..], u);
      case DollarQuoted => DollarQuotedExtends(s, u);
      case LineComment =>
        LineExtends(s, u);
        LineExtends(s, ")");
      case BlockComment =>
        assert (s + u)[2..] == s[2..] + u && (s + ")")[2..] == s[2..] + ")";
        BlockExtends(s[2..], 1, u);
    }
  }

  lemma DelimSurvives(s: string, u: string)
    requires s != "" && s[0] == '$' && DelimLen(s) > 0
    ensures DelimLen(s + u) == DelimLen(s)
  {
    assert (s + u)[1..] == s[1..][..|s| - 1] + u;
    TagLenPrefix(s[1..], true, |s| - 1, u);
  }

  lemma DollarQuotedExtends(s: string, u: string)
    requires Closer(u) && s != "" && Opening(s) == DollarQuoted && StepLen(s) == |s|
    ensures Opening(s + u) == DollarQuoted
    ensures StepLen(s + u) == if StepLen(s + ")") == |s| then |s| else |s + u|
  {
    hide TagLen, DollarLen;
    var d := DelimLen(s);
    DelimSurvives(s, u);
    DelimSurvives(s, ")");
    assert (s + u)[..d] == s[..d] && (s + u)[d..] == s[d..] + u;
    assert (s + ")")[..d] == s[..d] && (s + ")")[d..] == s[d..] + ")";
    assert s[..d][d - 1] == s[1..][d - 2];
    DollarExtends(s[d..], s[..d], u);
  }

  // ------------------------------------------------ which of the two it will be

  lemma {:induction false} DollarClosesExactly(r: string, delim: string)
    requires IsDelim(delim) && DollarLen(r, delim) == |r|
    ensures DollarLen(r + ")", delim) == |r| <==> EndsIn(r, delim)
  {
    var w := r + ")";
    if r == "" {
      assert w == ")";
    } else if delim <= r {
      assert delim <= w && r == delim;
    } else {
      NoDelimAcross(r, delim, ")");
      DollarClosesExactly(r[1..], delim);
      assert w[1..] == r[1..] + ")";
      assert |delim| < |r| ==> r[|r| - |delim|..] == r[1..][|r| - 1 - |delim|..];
    }
  }

  lemma {:induction false} BlockClosesExactly(t: string, depth: nat)
    requires BlockLen(t, depth) == |t|
    ensures BlockLen(t + ")", depth) == |t| <==> DepthAfter(t, depth) == 0
    decreases |t|
  {
    if t == "" {
      assert t + ")" == ")";
      if depth > 0 {
        BlockRunsOn(")", depth);
      }
    } else {
      var k, d := BlockMove(t, depth).0, BlockMove(t, depth).1;
      BlockMoveBefore(t, depth, ")");
      assert (t + ")")[k..] == t[k..] + ")";
      BlockClosesExactly(t[k..], d);
    }
  }

  /** A literal or comment at the end of a text is left alone by code put after it
      exactly if it is closed. */
  lemma ClosesExactly(s: string)
    requires s != "" && Opening(s) != Code && StepLen(s) == |s|
    ensures ClosedStep(s) <==> ClosedPiece(Piece(Opening(s), s))
  {
    StepExtends(s, ")");
    assert (s + ")")[1..] == s[1..] + ")";
    match Opening(s) {
      case SingleQuoted => SingleClosesExactly(s[1..]);
      case DoubleQuoted => DoubleClosesExactly(s[1..]);
      case DollarQuoted => DollarQuotedCloses(s);
      case LineComment => LineExtends(s, ")");
      case BlockComment =>
        assert (s + ")")[2..] == s[2..] + ")";
        BlockClosesExactly(s[2..], 1);
    }
  }

  lemma DollarQuotedCloses(s: string)
    requires s != "" && Opening(s) == DollarQuoted && StepLen(s) == |s|
    ensures ClosedStep(s) <==> ClosedPiece(Piece(DollarQuoted, s))
  {
    var d := DelimLen(s);
    DollarQuotedExtends(s, ")");
    DelimSurvives(s, ")");
    assert (s + ")")[..d] == s[..d] && (s + ")")[d..] == s[d..] + ")";
    assert s[..d][d - 1] == s[1..][d - 2];
    DollarClosesExactly(s[d..], s[..d]);
  }

  // -------------------------------------------------------------------- the wrap

  lemma CodeBeforeCloser(s: string, u: string)
    requires Closer(u) && s != "" && Opening(s) == Code
    ensures Opening(s + u) == Code
  {
    if s[0] == '$' {
      assert (s + u)[1..] == s[1..] + u;
      TagLenAppend(s[1..], true, u);
    }
  }

  lemma ExtendPrepend(segment: Segment, text: string, rest: seq<Piece>, u: string)
    requires rest != []
    ensures Extend(Prepend(segment, text, rest), u) == Prepend(segment, text, Extend(rest, u))
  {
    var ps := Prepend(segment, text, rest);
    var n := |rest| - 1;
    if segment == Code && rest[0].segment == Code {
      if n == 0 {
        assert (text + rest[0].text) + u == text + (rest[0].text + u);
      } else {
        assert ps[n] == rest[n];
        assert ps[..n] == [Piece(Code, text + rest[0].text)] + rest[1..n];
        assert rest[..n][1..] == rest[1..n];
      }
    } else {
      assert ps[n + 1] == rest[n];
      assert ps[..n + 1] == [Piece(segment, text)] + rest[..n];
    }
  }

  /** Code put after any text: it becomes code of its own, or runs on from the last
      piece, according to whether that piece is closed. */
  lemma {:induction false} LexExtend(s: string, u: string)
    requires Closer(u)
    ensures Lex(s + u) == Extend(Lex(s), u)
    decreases |s|
  {
    if s == "" {
      CloserIsCode(u);
      assert s + u == u;
    } else {
      var n := StepLen(s);
      if n < |s| {
        LexExtend(s[n..], u);
        LexHead(s[n..]);
        ExtendPrepend(Opening(s), s[..n], Lex(s[n..]), u);
        assert s == s[..n] + s[n..];
        LexStepBefore(s, s[..n], s[n..], u);
      } else {
        LexLastStep(s, u);
      }
    }
  }

  lemma CloserIsCode(u: string)
    requires Closer(u)
    ensures Lex(u) == [Piece(Code, u)]
  {
    InertIsCode(u, "");
    assert u + "" == u && Lex("") == [];
  }

  /** The first of several steps is the same with `u` after them. */
  lemma LexStepBefore(s: string, head: string, tail: string, u: string)
    requires Closer(u) && s != "" && s == head + tail && tail != "" && StepLen(s) == |head|
    ensures Lex(s + u) == Prepend(Opening(s), head, Lex(tail + u))
  {
    assert s + u == head + (tail + u);
    if Opening(s) == Code {
      CodeBeforeCloser(s, u);
    } else {
      assert s[..|head|] == head && s[|head|..] == tail;
      StepStable(s, tail + u);
    }
    LexStep(s + u, head, tail + u);
  }

  lemma LexLastStep(s: string, u: string)
    requires Closer(u) && s != "" && StepLen(s) == |s|
    ensures Lex(s + u) == Extend(Lex(s), u)
  {
    hide ClosedPiece, DelimLen, DollarLen, SingleLen, DoubleLen, LineLen, BlockLen;
    assert s[..|s|] == s && s[|s|..] == "" && Lex("") == [];
    assert Lex(s) == [Piece(Opening(s), s)];
    CloserIsCode(u);
    assert (s + u)[..|s|] == s && (s + u)[|s|..] == u;
    if Opening(s) == Code {
      CodeBeforeCloser(s, u);
    } else {
      StepExtends(s, u);
      ClosesExactly(s);
      assert (s + u)[..|s + u|] == s + u && (s + u)[|s + u|..] == "";
    }
  }

  /** A wrapped statement lexes as the wrap around the statement's own pieces, and
      the closing parenthesis is code exactly when the last of them is closed. */
  lemma WrapLexes(prefix: string, s: string, u: string)
    requires InertText(prefix) && Closer(u)
    ensures Lex(prefix + s + u) == Prepend(Code, prefix, Extend(Lex(s), u))
    ensures Extend(Lex(s), u)[|Extend(Lex(s), u)| - 1].segment == Code <==> Closed(Lex(s))
  {
    assert prefix + s + u == prefix + (s + u);
    InertIsCode(prefix, s + u);
    LexExtend(s, u);
  }

  /** A statement that ends in a line comment takes the closing parenthesis into it. */
  lemma TrailingComment(u: string)
    requires Closer(u)
    ensures Lex("SELECT 1 -- c") == [Piece(Code, "SELECT 1 "), Piece(LineComment, "-- c")]
    ensures !Closed(Lex("SELECT 1 -- c"))
    ensures Lex("SELECT 1 -- c" + u) == [Piece(Code, "SELECT 1 "), Piece(LineComment, "-- c" + u)]
  {
    CommentLexes("-- c");
    CodeThenComment("SELECT 1 ", "-- c", u);
    assert "SELECT 1 -- c" == "SELECT 1 " + "-- c";
  }

  lemma CodeThenComment(code: string, comment: string, u: string)
    requires InertText(code) && Closer(u) && Lex(comment) == [Piece(LineComment, comment)]
    ensures Lex(code + comment) == [Piece(Code, code), Piece(LineComment, comment)]
    ensures !Closed(Lex(code + comment))
    ensures Lex(code + comment + u) == [Piece(Code, code), Piece(LineComment, comment + u)]
  {
    hide Lex;
    InertIsCode(code, comment);
    var ps := [Piece(Code, code), Piece(LineComment, comment)];
    assert Prepend(Code, code, [Piece(LineComment, comment)]) == ps;
    LexExtend(code + comment, u);
    assert ps[..1] == [Piece(Code, code)];
  }

  lemma CommentLexes(c: string)
    requires "--" <= c && forall i :: 0 <= i < |c| ==> c[i] != '\n'
    ensures Lex(c) == [Piece(LineComment, c)]
  {
    LineRunsOn(c);
    assert c[0] == '-';
    LexStep(c, c, "");
  }
}
