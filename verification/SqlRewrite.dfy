/**
  Placeholder rewriting, src/sql.rs:227-336: `$n` in code becomes whatever a
  replacement function returns for `n`.

  The main result is `RewriteCommutes`: lexing the rewritten text gives the
  pieces of the original with only the placeholders in code changed.
*/
module SqlRewrite {
  import opened Wrappers
  import opened SqlLexer
  import Decimal
  import Seqs

  const USIZE_MAX: nat := 0xFFFF_FFFF_FFFF_FFFF

  datatype Rewritten = Rewritten(sql: string, paramCount: nat)

  predicate IsPlaceholder(s: string) { |s| > 1 && s[0] == '$' && Decimal.IsDigit(s[1]) }

  function DigitRun(s: string): (n: nat)
    ensures n <= |s|
    ensures forall i :: 0 <= i < n ==> Decimal.IsDigit(s[i])
    ensures n < |s| ==> !Decimal.IsDigit(s[n])
  {
    if s == "" || !Decimal.IsDigit(s[0]) then 0 else 1 + DigitRun(s[1..])
  }

  function PlaceholderLen(s: string): (n: nat)
    requires IsPlaceholder(s)
    ensures 2 <= n <= |s|
    ensures forall i :: 0 < i < n ==> Decimal.IsDigit(s[i])
    ensures n < |s| ==> !Decimal.IsDigit(s[n])
  {
    1 + DigitRun(s[1..])
  }

  /** The parameter index that digits name, if it fits a `usize` and is not zero. */
  function ParseIndex(digits: string): Option<nat>
    requires Decimal.AllDigits(digits)
  {
    var n := Decimal.FromDigits(digits);
    if 1 <= n <= USIZE_MAX then Some(n) else None
  }

  /** What stands in for the placeholder text `t`; an index that cannot be bound stays. */
  function Replacement(t: string, f: nat -> string): string
    requires t != "" && Decimal.AllDigits(t[1..])
  {
    match ParseIndex(t[1..])
    case Some(n) => f(n)
    case None => t
  }

  function IndexOf(t: string): nat
    requires t != "" && Decimal.AllDigits(t[1..])
  {
    match ParseIndex(t[1..])
    case Some(n) => n
    case None => 0
  }

  function Max(a: nat, b: nat): nat { if a < b then b else a }

  // ----------------------------------------------------- rewriting one code run

  function Subst(t: string, f: nat -> string): string
    decreases |t|
  {
    if t == "" then ""
    else if IsPlaceholder(t) then
      var n := PlaceholderLen(t);
      Replacement(t[..n], f) + Subst(t[n..], f)
    else t[..1] + Subst(t[1..], f)
  }

  function SubstMax(t: string): nat
    decreases |t|
  {
    if t == "" then 0
    else if IsPlaceholder(t) then
      var n := PlaceholderLen(t);
      Max(IndexOf(t[..n]), SubstMax(t[n..]))
    else SubstMax(t[1..])
  }

  function RewritePiece(p: Piece, f: nat -> string): Piece {
    if p.segment == Code then Piece(Code, Subst(p.text, f)) else p
  }

  function RewritePieces(ps: seq<Piece>, f: nat -> string): (r: seq<Piece>)
    ensures |r| == |ps|
    ensures forall i :: 0 <= i < |ps| ==> r[i] == RewritePiece(ps[i], f)
  {
    if ps == [] then [] else [RewritePiece(ps[0], f)] + RewritePieces(ps[1..], f)
  }

  function PiecesMax(ps: seq<Piece>): nat {
    if ps == [] then 0
    else Max(if ps[0].segment == Code then SubstMax(ps[0].text) else 0, PiecesMax(ps[1..]))
  }

  // -------------------------------------------------------- rewriting as one pass

  /** Rewriting as a pass over the text, restarting the lexer after each step. */
  function Rewrite(s: string, f: nat -> string): string
    decreases |s|
  {
    if s == "" then ""
    else if IsPlaceholder(s) then
      var n := PlaceholderLen(s);
      Replacement(s[..n], f) + Rewrite(s[n..], f)
    else s[..StepLen(s)] + Rewrite(s[StepLen(s)..], f)
  }

  /** The highest index the text asks to be bound. */
  function ParamCount(s: string): nat { PiecesMax(Lex(s)) }

  /** Replacement text that cannot open, close or extend anything around it. */
  predicate InertText(t: string) {
    && t != ""
    && t[0] != '*' && !Decimal.IsDigit(t[0])
    && forall i :: 0 <= i < |t| ==> t[i] !in {'\'', '"', '$', '-', '/'}
  }

  ghost predicate Inert(f: nat -> string) {
    forall n :: n >= 1 ==> InertText(f(n))
  }

  /** The first byte of a replacement neither opens anything nor goes on from what may
      stand before it. */
  predicate SafeHead(t: string) {
    t != "" && t[0] !in {'\'', '"', '$', '-', '/', '*'} && !Decimal.IsDigit(t[0])
  }

  ghost predicate SafeHeads(f: nat -> string) {
    forall n :: n >= 1 ==> SafeHead(f(n))
  }

  lemma InertHeads(f: nat -> string)
    requires Inert(f)
    ensures SafeHeads(f)
  {
    forall n: nat | n >= 1 ensures SafeHead(f(n)) {
      assert InertText(f(n));
    }
  }

  // ------------------------------------------------------------- the two theorems

  lemma {:induction false} LexCodeRun(s: string, k: nat)
    requires 0 < k <= |s| && CodeRun(s, 0, k)
    ensures Lex(s) == Prepend(Code, s[..k], Lex(s[k..]))
    decreases k
  {
    assert CodeAt(s, 0) && s[0..] == s;
    if k > 1 {
      var tail := s[1..];
      forall j | 0 <= j < k - 1 ensures CodeAt(tail, j) {
        assert CodeAt(s, j + 1) && tail[j..] == s[j + 1..];
      }
      LexCodeRun(tail, k - 1);
      assert tail[k - 1..] == s[k..];
      PrependTwice(s[..1], tail[..k - 1], Lex(s[k..]));
      assert s[..1] + tail[..k - 1] == s[..k];
    }
  }

  lemma {:induction false} PlaceholderIsCode(s: string, j: nat)
    requires IsPlaceholder(s) && j < PlaceholderLen(s)
    ensures CodeAt(s, j)
  {
    assert s[j..][0] == s[j];
    if j == 0 {
      assert s[0..] == s;
      assert !IsIdentStart(s[1]);
      assert TagLen(s[1..], true) == 0;
    }
  }

  lemma LexPlaceholder(s: string)
    requires IsPlaceholder(s)
    ensures Lex(s) == Prepend(Code, s[..PlaceholderLen(s)], Lex(s[PlaceholderLen(s)..]))
  {
    forall j | 0 <= j < PlaceholderLen(s) ensures CodeAt(s, j) {
      PlaceholderIsCode(s, j);
    }
    LexCodeRun(s, PlaceholderLen(s));
  }

  lemma InertIsCode(t: string, u: string)
    requires InertText(t)
    ensures Lex(t + u) == Prepend(Code, t, Lex(u))
  {
    var s := t + u;
    forall j | 0 <= j < |t| ensures CodeAt(s, j) {
      assert s[j..][0] == t[j];
    }
    LexCodeRun(s, |t|);
    assert s[..|t|] == t && s[|t|..] == u;
  }

  /** Rewriting keeps the first byte, or puts an inert one where a `$` was. */
  lemma RewriteHead(s: string, f: nat -> string)
    requires SafeHeads(f) && s != ""
    ensures Rewrite(s, f) != ""
    ensures var r := Rewrite(s, f);
      (r[0] == s[0] || (s[0] == '$' && r[0] !in {'\'', '"', '$', '-', '/', '*'} && !Decimal.IsDigit(r[0])))
    ensures s[0] != '$' ==> Rewrite(s, f)[0] == s[0]
  {
    if IsPlaceholder(s) {
      var t := s[..PlaceholderLen(s)];
      match ParseIndex(t[1..]) {
        case Some(n) => assert SafeHead(f(n)); assert Rewrite(s, f)[0] == f(n)[0];
        case None =>
      }
    }
  }

  lemma {:induction false} TagLenRewrite(x: string, first: bool, f: nat -> string)
    requires SafeHeads(f)
    requires TagLen(x, first) == 0
    ensures TagLen(Rewrite(x, f), first) == 0
  {
    if x != "" {
      RewriteHead(x, f);
      var r := Rewrite(x, f);
      if if first then IsIdentStart(x[0]) else IsTagChar(x[0]) {
        TagLenRewrite(x[1..], false, f);
        assert r[1..] == Rewrite(x[1..], f);
      }
    }
  }

  /** A byte of code stays code when what follows it is rewritten. */
  lemma CodeStaysCode(s: string, f: nat -> string)
    requires SafeHeads(f)
    requires s != "" && Opening(s) == Code && !IsPlaceholder(s)
    ensures Opening(s[..1] + Rewrite(s[1..], f)) == Code
  {
    var r := Rewrite(s[1..], f);
    var v := s[..1] + r;
    assert v[1..] == r;
    if |s| > 1 {
      RewriteHead(s[1..], f);
      if s[0] == '$' {
        TagLenRewrite(s[1..], true, f);
      }
    }
  }

  lemma SubstPrepend(s: string, f: nat -> string, n: nat, x: string)
    requires 0 < n <= |s|
    requires if IsPlaceholder(s)
      then n == PlaceholderLen(s) && x == Replacement(s[..n], f)
      else n == 1 && x == s[..1]
    ensures RewritePieces(Prepend(Code, s[..n], Lex(s[n..])), f)
      == Prepend(Code, x, RewritePieces(Lex(s[n..]), f))
  {
    var rest := Lex(s[n..]);
    LexHead(s[n..]);
    var sub := RewritePieces(rest, f);
    if rest != [] && rest[0].segment == Code {
      SubstFirst(s, n, rest[0].text, f);
      var joined := [Piece(Code, s[..n] + rest[0].text)] + rest[1..];
      assert joined[1..] == rest[1..];
    } else {
      SubstFirst(s, n, "", f);
      var joined := [Piece(Code, s[..n])] + rest;
      assert joined[1..] == rest;
      assert x + "" == x;
    }
  }

  lemma SubstFirst(s: string, n: nat, b: string, f: nat -> string)
    requires 0 < n <= |s|
    requires if IsPlaceholder(s) then n == PlaceholderLen(s) else n == 1
    requires b != "" ==> n < |s| && b[0] == s[n]
    ensures Subst(s[..n] + b, f) == (if IsPlaceholder(s) then Replacement(s[..n], f) else s[..1]) + Subst(b, f)
    ensures s[..n] + "" == s[..n]
  {
    var t := s[..n] + b;
    assert t[n..] == b;
    if IsPlaceholder(s) {
      RunEnds(t, n);
      assert t[..n] == s[..n];
    }
  }

  lemma RunEnds(t: string, n: nat)
    requires IsPlaceholder(t) && 2 <= n <= |t|
    requires forall i :: 0 < i < n ==> Decimal.IsDigit(t[i])
    requires n < |t| ==> !Decimal.IsDigit(t[n])
    ensures PlaceholderLen(t) == n
  {
  }

  /** Rewriting commutes with lexing: the rewritten text has the same spans, the
      literals and comments byte for byte, the code with its `$n` replaced. */
  lemma {:induction false} RewriteCommutes(s: string, f: nat -> string)
    requires Inert(f)
    ensures Lex(Rewrite(s, f)) == RewritePieces(Lex(s), f)
    decreases |s|
  {
    InertHeads(f);
    if s == "" {
    } else if IsPlaceholder(s) {
      var n := PlaceholderLen(s);
      var x := Replacement(s[..n], f);
      RewriteCommutes(s[n..], f);
      LexPlaceholder(s);
      SubstPrepend(s, f, n, x);
      LexReplacement(s, n, f, Rewrite(s[n..], f));
    } else if Opening(s) == Code {
      RewriteCommutes(s[1..], f);
      SubstPrepend(s, f, 1, s[..1]);
      CodeStaysCode(s, f);
      var v := s[..1] + Rewrite(s[1..], f);
      assert v[..1] == s[..1] && v[1..] == Rewrite(s[1..], f);
    } else {
      var n := StepLen(s);
      var u := Rewrite(s[n..], f);
      RewriteCommutes(s[n..], f);
      if n < |s| {
        RewriteHead(s[n..], f);
      }
      StepStable(s, u);
      var v := s[..n] + u;
      assert v[..n] == s[..n] && v[n..] == u;
    }
  }

  lemma LexReplacement(s: string, n: nat, f: nat -> string, u: string)
    requires Inert(f) && IsPlaceholder(s) && n == PlaceholderLen(s)
    ensures Lex(Replacement(s[..n], f) + u) == Prepend(Code, Replacement(s[..n], f), Lex(u))
  {
    match ParseIndex(s[..n][1..]) {
      case Some(k) =>
        InertIsCode(f(k), u);
      case None =>
        var v := s[..n] + u;
        forall j | 0 <= j < n ensures CodeAt(v, j) {
          PlaceholderIsCode(v, j);
        }
        LexCodeRun(v, n);
        assert v[..n] == s[..n] && v[n..] == u;
    }
  }

  // ------------------------------------------------------------ second rewriting

  /** One pass over the text and piece-by-piece rewriting agree. */
  lemma {:induction false} RewriteByPieces(s: string, f: nat -> string)
    ensures JoinText(RewritePieces(Lex(s), f)) == Rewrite(s, f)
    decreases |s|
  {
    if s == "" {
    } else if IsPlaceholder(s) || Opening(s) == Code {
      var n := if IsPlaceholder(s) then PlaceholderLen(s) else 1;
      var x := if IsPlaceholder(s) then Replacement(s[..n], f) else s[..1];
      if IsPlaceholder(s) {
        LexPlaceholder(s);
      }
      SubstPrepend(s, f, n, x);
      RewriteByPieces(s[n..], f);
      JoinPrepend(Code, x, RewritePieces(Lex(s[n..]), f));
    } else {
      var n := StepLen(s);
      RewriteByPieces(s[n..], f);
      assert Lex(s)[1..] == Lex(s[n..]);
      assert RewritePieces(Lex(s), f)[1..] == RewritePieces(Lex(s)[1..], f);
    }
  }

  lemma {:induction false} SubstPlain(x: string, u: string, g: nat -> string)
    requires forall i :: 0 <= i < |x| ==> x[i] != '$'
    ensures Subst(x + u, g) == x + Subst(u, g) && SubstMax(x + u) == SubstMax(u)
  {
    var v := x + u;
    if x == "" {
      assert v == u;
    } else {
      SubstPlain(x[1..], u, g);
      assert v[1..] == x[1..] + u;
      assert v[..1] + (x[1..] + Subst(u, g)) == x + Subst(u, g);
    }
  }

  lemma SubstHead(t: string, f: nat -> string)
    requires Inert(f)
    ensures t == "" ==> Subst(t, f) == ""
    ensures t != "" && !Decimal.IsDigit(t[0]) ==> Subst(t, f) != "" && !Decimal.IsDigit(Subst(t, f)[0])
  {
    if t != "" && IsPlaceholder(t) {
      var x := t[..PlaceholderLen(t)];
      match ParseIndex(x[1..]) {
        case Some(n) => assert InertText(f(n)); assert Subst(t, f)[0] == f(n)[0];
        case None =>
      }
    }
  }

  /** Rewritten code holds no placeholder that could be bound. */
  lemma {:induction false} SubstAgain(t: string, f: nat -> string, g: nat -> string)
    requires Inert(f)
    ensures Subst(Subst(t, f), g) == Subst(t, f)
    ensures SubstMax(Subst(t, f)) == 0
    decreases |t|
  {
    if t == "" {
    } else if IsPlaceholder(t) {
      var n := PlaceholderLen(t);
      var x, u := t[..n], Subst(t[n..], f);
      SubstAgain(t[n..], f, g);
      match ParseIndex(x[1..]) {
        case Some(k) =>
          assert InertText(f(k));
          SubstPlain(f(k), u, g);
        case None =>
          SubstHead(t[n..], f);
          RunEnds(x + u, n);
          assert (x + u)[..n] == x && (x + u)[n..] == u;
      }
    } else {
      SubstAgain(t[1..], f, g);
      SubstHead(t[1..], f);
      var v := t[..1] + Subst(t[1..], f);
      assert v[..1] == t[..1] && v[1..] == Subst(t[1..], f);
    }
  }

  lemma {:induction false} PiecesAgain(ps: seq<Piece>, f: nat -> string, g: nat -> string)
    requires Inert(f)
    ensures RewritePieces(RewritePieces(ps, f), g) == RewritePieces(ps, f)
    ensures PiecesMax(RewritePieces(ps, f)) == 0
  {
    if ps != [] {
      PiecesAgain(ps[1..], f, g);
      assert RewritePieces(ps, f)[1..] == RewritePieces(ps[1..], f);
      if ps[0].segment == Code {
        SubstAgain(ps[0].text, f, g);
      }
    }
  }

  /** A second rewrite, with whatever replacements, changes nothing and finds no
      parameter. */
  lemma RewriteOnce(s: string, f: nat -> string, g: nat -> string)
    requires Inert(f)
    ensures Rewrite(Rewrite(s, f), g) == Rewrite(s, f)
    ensures ParamCount(Rewrite(s, f)) == 0
  {
    RewriteCommutes(s, f);
    PiecesAgain(Lex(s), f, g);
    RewriteByPieces(s, f);
    RewriteByPieces(Rewrite(s, f), g);
  }

  // -------------------------------------------------------------------- the loop

  lemma {:induction false} SubstCopy(t: string, n: nat, f: nat -> string)
    requires 0 < n <= |t|
    requires !IsPlaceholder(t)
    requires forall i :: 0 < i < n ==> t[i] != '$'
    ensures Subst(t, f) == t[..n] + Subst(t[n..], f)
    ensures SubstMax(t) == SubstMax(t[n..])
  {
    var x, u := t[1..n], t[n..];
    assert t[1..] == x + u && t[..n] == t[..1] + x;
    SubstPlain(x, u, f);
    Seqs.Regroup(Subst(t, f), t[..n], Subst(t[1..], f), t[..1], x, Subst(u, f));
  }

  /** Where a code span ends, no digit follows. */
  lemma CodeSpanEnd(sql: string, spans: seq<Span>, k: nat)
    requires Tiles(spans, |sql|) && Within(sql, spans)
    requires PiecesOf(sql, spans) == Lex(sql)
    requires k < |spans| && spans[k].segment == Code
    ensures spans[k].end < |sql| ==> !Decimal.IsDigit(sql[spans[k].end])
  {
    hide Lex, ValidUtf8;
    LexStructure(sql);
    var ps := Lex(sql);
    assert ps[k] == Piece(Code, sql[spans[k].start..spans[k].end]);
    if k + 1 < |spans| {
      var next := spans[k + 1];
      assert ps[k + 1] == Piece(next.segment, sql[next.start..next.end]);
      assert ps[k + 1] in ps;
      assert ps[k + 1].text[0] == sql[next.start];
    }
  }

  /** What one turn of the inner loop has to achieve on the code left to rewrite. */
  ghost predicate Turned(t: string, text: string, index: nat, u: string, f: nat -> string) {
    && Subst(t, f) == text + Subst(u, f)
    && SubstMax(t) == Max(index, SubstMax(u))
  }

  /** The inner loop of `map_placeholders`, over one code span. */
  method RewriteCodeSpan(sql: string, start: nat, end: nat, f: nat -> string) returns (out: string, paramCount: nat)
    requires ValidUtf8(sql)
    requires start <= end <= |sql|
    requires IsCharBoundary(sql, start) && IsCharBoundary(sql, end)
    requires end < |sql| ==> !Decimal.IsDigit(sql[end])
    ensures out == Subst(sql[start..end], f)
    ensures paramCount == SubstMax(sql[start..end])
  {
    assert Subst("", f) == "" && SubstMax("") == 0;
    hide Subst, SubstMax, ValidUtf8, Utf8Len;
    out := "";
    paramCount := 0;
    var i := start;
    while i < end
      invariant start <= i <= end && IsCharBoundary(sql, i)
      invariant Turned(sql[start..end], out, paramCount, sql[i..end], f)
    {
      ghost var t := sql[i..end];
      var text, index;
      if sql[i] == '$' && i + 1 < |sql| && Decimal.IsDigit(sql[i + 1]) {
        text, index, i := ReplaceAt(sql, i, end, f);
      } else {
        text, i := CopyAt(sql, i, end, f);
        index := 0;
      }
      Accumulate(sql[start..end], out, paramCount, t, text, index, sql[i..end], f);
      out := out + text;
      paramCount := Max(paramCount, index);
    }
    assert sql[end..end] == "";
  }

  method ReplaceAt(sql: string, i: nat, end: nat, f: nat -> string) returns (text: string, index: nat, j: nat)
    requires ValidUtf8(sql)
    requires i + 1 < end <= |sql| && IsPlaceholder(sql[i..end])
    ensures i < j <= end && IsCharBoundary(sql, j)
    ensures Turned(sql[i..end], text, index, sql[j..end], f)
  {
    j := DigitsEnd(sql, i + 1, end);
    text, index := Replace(sql, i, j, f);
    PlaceholderStep(sql, i, j, end, f);
  }

  method CopyAt(sql: string, i: nat, end: nat, f: nat -> string) returns (text: string, j: nat)
    requires ValidUtf8(sql)
    requires i < end <= |sql| && !IsPlaceholder(sql[i..end])
    requires IsCharBoundary(sql, i) && IsCharBoundary(sql, end)
    ensures i < j <= end && IsCharBoundary(sql, j)
    ensures Turned(sql[i..end], text, 0, sql[j..end], f)
  {
    hide Subst, SubstMax, ValidUtf8, IsPlaceholder;
    WholeCharacter(sql, i, end);
    j := i + Utf8Len(sql[i]);
    CopyStep(sql, i, j - i, end, f);
    text := sql[i..j];
  }

  lemma Accumulate(s: string, out: string, paramCount: nat, t: string, text: string, index: nat, u: string,
      f: nat -> string)
    requires Turned(s, out, paramCount, t, f) && Turned(t, text, index, u, f)
    ensures Turned(s, out + text, Max(paramCount, index), u, f)
  {
    assert (out + text) + Subst(u, f) == out + (text + Subst(u, f));
  }

  method Replace(sql: string, i: nat, j: nat, f: nat -> string) returns (text: string, index: nat)
    requires i + 1 < j <= |sql|
    requires forall k :: i < k < j ==> Decimal.IsDigit(sql[k])
    ensures Decimal.AllDigits(sql[i..j][1..])
    ensures text == Replacement(sql[i..j], f) && index == IndexOf(sql[i..j])
  {
    assert sql[i..j][1..] == sql[i + 1..j];
    match ParseIndex(sql[i + 1..j]) {
      case Some(n) =>
        text, index := f(n), n;
      case None =>
        text, index := sql[i..j], 0;
    }
  }

  method DigitsEnd(sql: string, from: nat, end: nat) returns (j: nat)
    requires from <= end <= |sql|
    ensures from <= j <= end
    ensures forall k :: from <= k < j ==> Decimal.IsDigit(sql[k])
    ensures j < end ==> !Decimal.IsDigit(sql[j])
  {
    j := from;
    while j < end && Decimal.IsDigit(sql[j])
      invariant from <= j <= end
      invariant forall k :: from <= k < j ==> Decimal.IsDigit(sql[k])
    {
      j := j + 1;
    }
  }

  lemma PlaceholderStep(sql: string, i: nat, j: nat, end: nat, f: nat -> string)
    requires ValidUtf8(sql)
    requires i + 1 < j <= end <= |sql| && sql[i] == '$'
    requires forall k :: i < k < j ==> Decimal.IsDigit(sql[k])
    requires j < end ==> !Decimal.IsDigit(sql[j])
    ensures Decimal.AllDigits(sql[i..j][1..])
    ensures Subst(sql[i..end], f) == Replacement(sql[i..j], f) + Subst(sql[j..end], f)
    ensures SubstMax(sql[i..end]) == Max(IndexOf(sql[i..j]), SubstMax(sql[j..end]))
    ensures IsCharBoundary(sql, j)
  {
    DigitsAreBoundary(sql, j, end);
    DigitSlice(sql, i, j, end);
    SubstRun(sql[i..end], sql[i..j], sql[j..end], f);
  }

  lemma DigitSlice(sql: string, i: nat, j: nat, end: nat)
    requires i + 1 < j <= end <= |sql|
    requires forall k :: i < k < j ==> Decimal.IsDigit(sql[k])
    ensures forall k :: 0 < k < |sql[i..j]| ==> Decimal.IsDigit(sql[i..j][k])
    ensures sql[i..end] == sql[i..j] + sql[j..end]
  {
  }

  lemma SubstRun(t: string, run: string, u: string, f: nat -> string)
    requires t == run + u
    requires |run| >= 2 && run[0] == '$' && forall k :: 0 < k < |run| ==> Decimal.IsDigit(run[k])
    requires u != "" ==> !Decimal.IsDigit(u[0])
    ensures Decimal.AllDigits(run[1..])
    ensures Subst(t, f) == Replacement(run, f) + Subst(u, f)
    ensures SubstMax(t) == Max(IndexOf(run), SubstMax(u))
  {
    RunEnds(t, |run|);
    assert t[..|run|] == run && t[|run|..] == u;
  }

  lemma WholeCharacter(sql: string, i: nat, end: nat)
    requires ValidUtf8(sql)
    requires i < end <= |sql|
    requires IsCharBoundary(sql, i) && IsCharBoundary(sql, end)
    ensures i + Utf8Len(sql[i]) <= end && IsCharBoundary(sql, i + Utf8Len(sql[i]))
    ensures forall k :: i < k < i + Utf8Len(sql[i]) ==> sql[k] != '$'
  {
    Utf8Local(sql, i);
  }

  lemma CopyStep(sql: string, i: nat, len: nat, end: nat, f: nat -> string)
    requires i < i + len <= end <= |sql|
    requires !IsPlaceholder(sql[i..end])
    requires forall k :: i < k < i + len ==> sql[k] != '$'
    ensures Subst(sql[i..end], f) == sql[i..i + len] + Subst(sql[i + len..end], f)
    ensures SubstMax(sql[i..end]) == SubstMax(sql[i + len..end])
  {
    var t := sql[i..end];
    SubstCopy(t, len, f);
    assert t[..len] == sql[i..i + len] && t[len..] == sql[i + len..end];
  }

  lemma DigitsAreBoundary(sql: string, j: nat, end: nat)
    requires ValidUtf8(sql)
    requires 0 < j <= end <= |sql| && Decimal.IsDigit(sql[j - 1])
    ensures IsCharBoundary(sql, j)
  {
    if j < |sql| {
      Utf8Local(sql, j);
    }
  }

  lemma {:induction false} JoinSnoc(ps: seq<Piece>, p: Piece)
    ensures JoinText(ps + [p]) == JoinText(ps) + p.text
  {
    if ps == [] {
      assert ps + [p] == [p] && [p][1..] == [];
    } else {
      JoinSnoc(ps[1..], p);
      assert (ps + [p])[1..] == ps[1..] + [p];
    }
  }

  lemma {:induction false} MaxSnoc(ps: seq<Piece>, p: Piece)
    ensures PiecesMax(ps + [p]) == Max(PiecesMax(ps), if p.segment == Code then SubstMax(p.text) else 0)
  {
    if ps == [] {
      assert ps + [p] == [p] && [p][1..] == [];
    } else {
      MaxSnoc(ps[1..], p);
      assert (ps + [p])[1..] == ps[1..] + [p];
    }
  }

  lemma RewriteSnoc(ps: seq<Piece>, p: Piece, f: nat -> string)
    ensures JoinText(RewritePieces(ps + [p], f)) == JoinText(RewritePieces(ps, f)) + RewritePiece(p, f).text
  {
    JoinSnoc(RewritePieces(ps, f), RewritePiece(p, f));
    assert RewritePieces(ps + [p], f) == RewritePieces(ps, f) + [RewritePiece(p, f)];
  }

  /** The source's `map_placeholders`. A `str` is always valid UTF-8. */
  method MapPlaceholders(sql: string, f: nat -> string) returns (r: Rewritten)
    requires ValidUtf8(sql)
    ensures r.sql == Rewrite(sql, f)
    ensures r.paramCount == ParamCount(sql)
  {
    var spans := Scan(sql);
    ghost var ps := Lex(sql);
    var out, paramCount := "", 0;
    for k := 0 to |spans|
      invariant out == JoinText(RewritePieces(ps[..k], f))
      invariant paramCount == PiecesMax(ps[..k])
    {
      var span := spans[k];
      assert ps[k] == Piece(span.segment, sql[span.start..span.end]);
      RewriteSnoc(ps[..k], ps[k], f);
      MaxSnoc(ps[..k], ps[k]);
      assert ps[..k] + [ps[k]] == ps[..k + 1];
      if span.segment != Code {
        out := out + sql[span.start..span.end];
      } else {
        SpanBoundaries(sql, spans, k);
        CodeSpanEnd(sql, spans, k);
        var text, n := RewriteCodeSpan(sql, span.start, span.end, f);
        out := out + text;
        paramCount := Max(paramCount, n);
      }
    }
    assert ps[..|spans|] == ps;
    RewriteByPieces(sql, f);
    return Rewritten(out, paramCount);
  }
}
