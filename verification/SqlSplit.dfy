/**
  Splitting a simple-query string into statements, src/sql.rs:338-386.
*/
module SqlSplit {
  import opened Wrappers
  import opened SqlLexer
  import opened SqlRewrite
  import Seqs
  import Decimal

  // -------------------------------------------------------------- blank statements

  /** Bytes of the whitespace character at the head of `s`, or 0. These are the
      UTF-8 forms of the characters `str::trim` strips. */
  function SpaceLen(s: string): (n: nat)
    ensures n <= |s|
  {
    if s == "" then 0
    else if '\t' <= s[0] <= '\r' || s[0] == ' ' then 1
    else if |s| >= 2 && s[0] as int == 0xC2 && s[1] as int in {0x85, 0xA0} then 2
    else if |s| >= 3 && s[0] as int == 0xE1 && s[1] as int == 0x9A && s[2] as int == 0x80 then 3
    else if |s| >= 3 && s[0] as int == 0xE2 && s[1] as int == 0x80
      && (0x80 <= s[2] as int <= 0x8A || s[2] as int in {0xA8, 0xA9, 0xAF}) then 3
    else if |s| >= 3 && s[0] as int == 0xE2 && s[1] as int == 0x81 && s[2] as int == 0x9F then 3
    else if |s| >= 3 && s[0] as int == 0xE3 && s[1] as int == 0x80 && s[2] as int == 0x80 then 3
    else 0
  }

  /** `s.trim().is_empty()` */
  predicate AllSpace(s: string) {
    s == "" || (SpaceLen(s) > 0 && AllSpace(s[SpaceLen(s)..]))
  }

  predicate IsComment(segment: Segment) { segment == LineComment || segment == BlockComment }

  predicate IsBlankPieces(ps: seq<Piece>) {
    forall p :: p in ps ==> IsComment(p.segment) || AllSpace(p.text)
  }

  predicate IsBlank(s: string) { IsBlankPieces(Lex(s)) }

  method IsBlankStatement(sql: string) returns (blank: bool)
    ensures blank == IsBlank(sql)
  {
    var spans := Scan(sql);
    ghost var ps := Lex(sql);
    for k := 0 to |spans|
      invariant IsBlankPieces(ps[..k])
    {
      assert ps[k] == Piece(spans[k].segment, sql[spans[k].start..spans[k].end]);
      if !IsComment(spans[k].segment) && !AllSpace(sql[spans[k].start..spans[k].end]) {
        return false;
      }
    }
    return true;
  }

  // --------------------------------------------------------------------- splitting

  /** The offset of the first semicolon in code, or the length of `s`. */
  function FirstSemi(s: string): (k: nat)
    ensures k <= |s|
    ensures k < |s| ==> s[k] == ';'
    decreases |s|
  {
    if s == "" || s[0] == ';' then 0
    else StepLen(s) + FirstSemi(s[StepLen(s)..])
  }

  /** Every fragment between code semicolons, blank ones included. */
  function Fragments(s: string): (r: seq<string>)
    ensures r != []
    decreases |s|
  {
    var k := FirstSemi(s);
    if k == |s| then [s] else [s[..k]] + Fragments(s[k + 1..])
  }

  function NonBlank(qs: seq<string>): seq<string> { Seqs.Filter(q => !IsBlank(q), qs) }

  function Statements(s: string): seq<string> { NonBlank(Fragments(s)) }

  // ------------------------------------------------------------------ its properties

  /** Nothing is lost: the fragments joined by `;` are the input. */
  lemma {:induction false} SplitLossless(s: string)
    ensures Seqs.JoinWith(Fragments(s), ";") == s
    decreases |s|
  {
    var k := FirstSemi(s);
    if k < |s| {
      SplitLossless(s[k + 1..]);
      assert Fragments(s)[1..] == Fragments(s[k + 1..]);
      assert s == s[..k] + ";" + s[k + 1..];
    }
  }

  lemma NotSemi(s: string)
    requires s != "" && Opening(s) != Code
    ensures s[0] != ';'
  {
  }

  /** Cutting at the first code semicolon cuts nothing else. */
  lemma {:induction false} CutStep(s: string)
    requires s != "" && s[0] != ';' && FirstSemi(s) < |s|
    ensures var k, n := FirstSemi(s), StepLen(s);
      && n <= k
      && Opening(s[..k]) == Opening(s) && StepLen(s[..k]) == n
      && s[..k][n..] == s[n..][..k - n] && FirstSemi(s[n..]) == k - n
  {
    var k, n := FirstSemi(s), StepLen(s);
    if Opening(s) == Code {
      CutStaysCode(s, k);
    } else {
      var u := s[n..k];
      assert s[..n] + u == s[..k];
      StepStable(s, u);
    }
  }

  lemma NextSemi(s: string)
    requires s != "" && s[0] != ';'
    ensures FirstSemi(s) == StepLen(s) + FirstSemi(s[StepLen(s)..])
  {
  }

  lemma {:induction false} CutHasNoSemi(s: string, k: nat)
    requires k == FirstSemi(s) < |s|
    ensures FirstSemi(s[..k]) == k
    decreases |s|
  {
    if s[0] != ';' {
      hide StepLen, Opening, FirstSemi;
      var n, cut := StepLen(s), s[..k];
      CutStep(s);
      CutHasNoSemi(s[n..], k - n);
      NextSemi(cut);
    }
  }

  /** A fragment taken alone splits into just itself. */
  lemma {:induction false} FragmentAlone(s: string, q: string)
    requires q in Fragments(s)
    ensures Fragments(q) == [q]
    decreases |s|
  {
    var k := FirstSemi(s);
    if k < |s| {
      if q == s[..k] {
        CutHasNoSemi(s, k);
      } else {
        FragmentAlone(s[k + 1..], q);
      }
    }
  }

  ghost predicate NoCodeSemi(ps: seq<Piece>) {
    forall p :: p in ps && p.segment == Code ==> ';' !in p.text
  }

  /** ... because no semicolon in it is code, and only then. */
  lemma AloneMeansNoSemi(q: string)
    ensures Fragments(q) == [q] <==> NoCodeSemi(Lex(q))
    ensures FirstSemi(q) == |q| <==> NoCodeSemi(Lex(q))
  {
    SemiMeans(q);
    hide NoCodeSemi, Lex, FirstSemi;
    if FirstSemi(q) < |q| {
      assert |Fragments(q)| > 1;
    }
  }

  lemma {:induction false} SemiMeans(q: string)
    ensures FirstSemi(q) == |q| <==> NoCodeSemi(Lex(q))
    decreases |q|
  {
    if q != "" {
      hide Opening, StepLen, Prepend, NoCodeSemi;
      var n := StepLen(q);
      SemiIsCode(q);
      SemiMeans(q[n..]);
      PrependSemi(Opening(q), q[..n], Lex(q[n..]));
      if Opening(q) == Code {
        CodeStep(q);
        assert ';' in q[..1] <==> q[0] == ';';
      }
    }
  }

  lemma SemiIsCode(q: string)
    requires q != ""
    ensures q[0] == ';' ==> Opening(q) == Code
  {
  }

  lemma CodeStep(q: string)
    requires q != "" && Opening(q) == Code
    ensures StepLen(q) == 1
  {
  }

  lemma PrependSemi(segment: Segment, text: string, rest: seq<Piece>)
    ensures NoCodeSemi(Prepend(segment, text, rest)) <==> (segment == Code ==> ';' !in text) && NoCodeSemi(rest)
  {
    var ps := Prepend(segment, text, rest);
    if segment == Code && rest != [] && rest[0].segment == Code {
      assert forall p :: p in rest ==> p == rest[0] || p in rest[1..];
      assert ps[0] in ps;
    } else {
      assert ps[0] in ps;
    }
  }

  /** Each statement is a statement on its own, and holds no code semicolon. */
  lemma StatementAlone(s: string, q: string)
    requires q in Statements(s)
    ensures Statements(q) == [q]
    ensures NoCodeSemi(Lex(q))
  {
    Seqs.FilterMember(q => !IsBlank(q), Fragments(s), q);
    FragmentAlone(s, q);
    AloneMeansNoSemi(q);
    NonBlankCons(q, []);
    assert [q] + [] == [q];
  }

  function Literals(ps: seq<Piece>): seq<Piece> {
    if ps == [] then []
    else (if ps[0].segment == Code then [] else [ps[0]]) + Literals(ps[1..])
  }

  function AllLiterals(qs: seq<string>): seq<Piece> {
    if qs == [] then [] else Literals(Lex(qs[0])) + AllLiterals(qs[1..])
  }

  lemma PrependLiterals(segment: Segment, text: string, rest: seq<Piece>)
    ensures Literals(Prepend(segment, text, rest)) ==
      (if segment == Code then [] else [Piece(segment, text)]) + Literals(rest)
  {
    var ps := Prepend(segment, text, rest);
    assert ps[1..] == if segment == Code && rest != [] && rest[0].segment == Code then rest[1..] else rest;
  }

  function StepLiteral(s: string): seq<Piece>
    requires s != ""
  {
    if Opening(s) == Code then [] else [Piece(Opening(s), s[..StepLen(s)])]
  }

  lemma LiteralsStep(s: string)
    requires s != ""
    ensures Literals(Lex(s)) == StepLiteral(s) + Literals(Lex(s[StepLen(s)..]))
  {
    PrependLiterals(Opening(s), s[..StepLen(s)], Lex(s[StepLen(s)..]));
  }

  lemma CutStepLiteral(s: string, k: nat)
    requires s != "" && s[0] != ';' && k == FirstSemi(s) < |s|
    ensures 0 < StepLen(s) <= k && StepLiteral(s[..k]) == StepLiteral(s)
    ensures StepLen(s[..k]) == StepLen(s)
    ensures s[..k][StepLen(s)..] == s[StepLen(s)..][..k - StepLen(s)]
    ensures FirstSemi(s[StepLen(s)..]) == k - StepLen(s)
  {
    hide FirstSemi, StepLen, Opening;
    CutStep(s);
    assert s[..k][..StepLen(s)] == s[..StepLen(s)];
  }

  lemma SemiLiterals(s: string)
    requires s != "" && s[0] == ';'
    ensures FirstSemi(s) == 0 && StepLen(s) == 1 && StepLiteral(s) == []
    ensures Literals(Lex(s[..0])) == []
  {
    assert s[..0] == "";
  }

  lemma {:induction false} LiteralsAtCut(s: string, k: nat)
    requires k == FirstSemi(s) < |s|
    ensures Literals(Lex(s)) == Literals(Lex(s[..k])) + Literals(Lex(s[k + 1..]))
    decreases |s|
  {
    hide Lex, Literals;
    LiteralsStep(s);
    if s[0] == ';' {
      SemiLiterals(s);
    } else {
      hide StepLiteral, FirstSemi;
      var n := StepLen(s);
      CutStepLiteral(s, k);
      var rest, cut := s[n..], s[..k];
      LiteralsAtCut(rest, k - n);
      LiteralsStep(cut);
      var tail := s[k + 1..];
      assert rest[k - n + 1..] == tail;
      Seqs.Regroup(Literals(Lex(s)), Literals(Lex(cut)), Literals(Lex(rest)),
        StepLiteral(s), Literals(Lex(cut[n..])), Literals(Lex(tail)));
    }
  }

  /** Splitting cuts no literal and no comment: the fragments lexed one by one
      have, in order, exactly the literals and comments of the whole. */
  lemma {:induction false} SplitKeepsLiterals(s: string)
    ensures AllLiterals(Fragments(s)) == Literals(Lex(s))
    decreases |s|
  {
    hide Literals, Lex, FirstSemi;
    var k := FirstSemi(s);
    if k == |s| {
      assert [s][1..] == [];
    } else {
      LiteralsAtCut(s, k);
      SplitKeepsLiterals(s[k + 1..]);
      assert Fragments(s)[1..] == Fragments(s[k + 1..]);
    }
  }

  // ------------------------------------------------------- splitting and rewriting

  /** Replacement text that neither splits a statement nor blanks one. */
  ghost predicate InertForSplit(f: nat -> string) {
    Inert(f) && forall n :: n >= 1 ==> ';' !in f(n) && SpaceLen(f(n)) == 0 && f(n)[0] as int < 0x80
  }

  function RewriteAll(qs: seq<string>, f: nat -> string): seq<string> { Seqs.Map(q => Rewrite(q, f), qs) }

  lemma {:induction false} SemiRun(s: string, n: nat)
    requires n <= |s|
    requires CodeRun(s, 0, n) && forall j :: 0 <= j < n ==> s[j] != ';'
    ensures FirstSemi(s) == n + FirstSemi(s[n..])
    decreases n
  {
    assert s[0..] == s;
    if n > 0 {
      var rest := s[1..];
      assert CodeAt(s, 0);
      forall j | 0 <= j < n - 1 ensures rest[j] != ';' && CodeAt(rest, j) {
        assert CodeAt(s, j + 1) && rest[j..] == s[j + 1..];
      }
      SemiRun(rest, n - 1);
      assert rest[n - 1..] == s[n..];
    }
  }

  lemma SemiReplacement(s: string, n: nat, f: nat -> string, u: string)
    requires InertForSplit(f) && IsPlaceholder(s) && n == PlaceholderLen(s)
    requires u != "" ==> !Decimal.IsDigit(u[0])
    ensures FirstSemi(Replacement(s[..n], f) + u) == |Replacement(s[..n], f)| + FirstSemi(u)
  {
    var x := Replacement(s[..n], f);
    var v := x + u;
    forall j | 0 <= j < |x| ensures v[j] != ';' && CodeAt(v, j) {
      match ParseIndex(s[..n][1..]) {
        case Some(k) =>
          assert v[j] == f(k)[j] && v[j..][0] == v[j];
          assert InertText(f(k)) && f(k)[j] in f(k);
        case None =>
          RunEnds(v, n);
          PlaceholderIsCode(v, j);
      }
    }
    SemiRun(v, |x|);
    assert v[|x|..] == u;
  }

  lemma RewriteHeadNoDigit(s: string, f: nat -> string)
    requires Inert(f)
    requires s != "" ==> !Decimal.IsDigit(s[0])
    ensures Rewrite(s, f) != "" ==> !Decimal.IsDigit(Rewrite(s, f)[0])
  {
    if s != "" {
      InertHeads(f);
      RewriteHead(s, f);
    }
  }

  /** One step of `Rewrite`: what it reads and what it writes. */
  function StepSize(s: string): (n: nat)
    requires s != ""
    ensures 0 < n <= |s|
  {
    if IsPlaceholder(s) then PlaceholderLen(s) else StepLen(s)
  }

  function StepText(s: string, f: nat -> string): string
    requires s != ""
  {
    if IsPlaceholder(s) then Replacement(s[..PlaceholderLen(s)], f) else s[..StepLen(s)]
  }

  lemma RewriteOneStep(s: string, f: nat -> string)
    requires s != ""
    ensures Rewrite(s, f) == StepText(s, f) + Rewrite(s[StepSize(s)..], f)
  {
  }

  /** A step in front of the first code semicolon survives the cut there. */
  ghost predicate Survives(s: string, k: nat, n: nat, f: nat -> string)
    requires k <= |s|
  {
    && 0 < n <= k && FirstSemi(s[n..]) == k - n
    && StepSize(s) == n && StepSize(s[..k]) == n && StepText(s[..k], f) == StepText(s, f)
    && s[..k][n..] == s[n..][..k - n]
  }

  lemma PlaceholderBeforeSemi(s: string)
    requires IsPlaceholder(s)
    ensures FirstSemi(s) == PlaceholderLen(s) + FirstSemi(s[PlaceholderLen(s)..])
  {
    forall j | 0 <= j < PlaceholderLen(s) ensures s[j] != ';' && CodeAt(s, j) {
      PlaceholderIsCode(s, j);
    }
    SemiRun(s, PlaceholderLen(s));
  }

  lemma PlaceholderSurvives(s: string, k: nat, f: nat -> string)
    requires IsPlaceholder(s) && k == FirstSemi(s)
    ensures Survives(s, k, PlaceholderLen(s), f)
  {
    hide FirstSemi, Replacement, Opening, StepLen;
    var n, cut := PlaceholderLen(s), s[..k];
    PlaceholderBeforeSemi(s);
    RunEnds(cut, n);
    assert cut[..n] == s[..n];
  }

  lemma StepSurvives(s: string, k: nat, f: nat -> string)
    requires s != "" && s[0] != ';' && !IsPlaceholder(s) && k == FirstSemi(s)
    ensures Survives(s, k, StepLen(s), f)
  {
    var n, cut := StepLen(s), s[..k];
    if k < |s| {
      CutStep(s);
    } else {
      assert cut == s;
    }
    assert cut[..n] == s[..n];
  }

  /** Rewriting leaves the lexer's steps where they were. */
  lemma SemiAfterStep(s: string, f: nat -> string)
    requires InertForSplit(f) && s != "" && s[0] != ';'
    ensures FirstSemi(Rewrite(s, f)) == |StepText(s, f)| + FirstSemi(Rewrite(s[StepSize(s)..], f))
  {
    InertHeads(f);
    var n := StepSize(s);
    var u := Rewrite(s[n..], f);
    if IsPlaceholder(s) {
      RewriteHeadNoDigit(s[n..], f);
      SemiReplacement(s, n, f, u);
    } else {
      var v := s[..n] + u;
      assert v[n..] == u;
      if Opening(s) == Code {
        CodeStaysCode(s, f);
      } else {
        if n < |s| {
          RewriteHead(s[n..], f);
        }
        StepStable(s, u);
      }
    }
  }

  /** The text up to the first code semicolon, rewritten, is the rewritten text
      up to its first code semicolon; likewise what follows it. */
  lemma {:induction false} SemiRewrite(s: string, k: nat, f: nat -> string)
    requires InertForSplit(f) && k == FirstSemi(s)
    ensures FirstSemi(Rewrite(s, f)) == |Rewrite(s[..k], f)|
    ensures Rewrite(s, f) == Rewrite(s[..k], f) + AfterSemi(s, k, f)
    decreases |s|
  {
    if s == "" {
      assert s[..k] == s;
    } else if s[0] == ';' {
      SemiFirst(s, f);
    } else {
      hide FirstSemi, Rewrite, AfterSemi, StepSize, InertForSplit;
      var n := StepSize(s);
      FirstStepSurvives(s, k, f);
      SemiRewrite(s[n..], k - n, f);
      RewriteCut(s, k, n, f);
    }
  }

  lemma SemiFirst(s: string, f: nat -> string)
    requires s != "" && s[0] == ';'
    ensures FirstSemi(Rewrite(s, f)) == 0 && Rewrite(s[..0], f) == ""
    ensures Rewrite(s, f) == AfterSemi(s, 0, f)
  {
    SemiStep(s, f);
    RewriteOneStep(s, f);
    SemiHere(";" + Rewrite(s[1..], f));
  }

  lemma SemiStep(s: string, f: nat -> string)
    requires s != "" && s[0] == ';'
    ensures StepSize(s) == 1 && StepText(s, f) == ";"
  {
  }

  lemma SemiHere(v: string)
    requires v != "" && v[0] == ';'
    ensures FirstSemi(v) == 0
  {
  }

  lemma FirstStepSurvives(s: string, k: nat, f: nat -> string)
    requires s != "" && s[0] != ';' && k == FirstSemi(s)
    ensures Survives(s, k, StepSize(s), f)
  {
    if IsPlaceholder(s) {
      PlaceholderSurvives(s, k, f);
    } else {
      StepSurvives(s, k, f);
    }
  }

  lemma RewriteCut(s: string, k: nat, n: nat, f: nat -> string)
    requires InertForSplit(f) && s != "" && s[0] != ';' && k <= |s|
    requires Survives(s, k, n, f)
    requires FirstSemi(Rewrite(s[n..], f)) == |Rewrite(s[n..][..k - n], f)|
    requires Rewrite(s[n..], f) == Rewrite(s[n..][..k - n], f) + AfterSemi(s[n..], k - n, f)
    ensures FirstSemi(Rewrite(s, f)) == |Rewrite(s[..k], f)|
    ensures Rewrite(s, f) == Rewrite(s[..k], f) + AfterSemi(s, k, f)
  {
    var cut, rest := s[..k], s[n..];
    SemiAfterStep(s, f);
    RewriteOneStep(s, f);
    RewriteOneStep(cut, f);
    AfterSemiStep(s, k, n, f);
    Seqs.Regroup(Rewrite(s, f), Rewrite(cut, f), Rewrite(rest, f),
      StepText(s, f), Rewrite(cut[n..], f), AfterSemi(s, k, f));
  }

  function AfterSemi(s: string, k: nat, f: nat -> string): string
    requires k <= |s|
  {
    if k < |s| then ";" + Rewrite(s[k + 1..], f) else ""
  }

  lemma AfterSemiStep(s: string, k: nat, n: nat, f: nat -> string)
    requires n <= k <= |s|
    ensures AfterSemi(s[n..], k - n, f) == AfterSemi(s, k, f)
  {
    if k < |s| {
      assert s[n..][k - n + 1..] == s[k + 1..];
    }
  }

  /** Splitting the rewritten text gives the fragments, rewritten. */
  lemma {:induction false} SplitRewritten(s: string, f: nat -> string)
    requires InertForSplit(f)
    ensures Fragments(Rewrite(s, f)) == RewriteAll(Fragments(s), f)
    decreases |s|
  {
    var k := FirstSemi(s);
    var r := Rewrite(s, f);
    SemiRewrite(s, k, f);
    var m := FirstSemi(r);
    if k == |s| {
      assert s[..k] == s;
    } else {
      SplitRewritten(s[k + 1..], f);
      assert r[..m] == Rewrite(s[..k], f) && r[m + 1..] == Rewrite(s[k + 1..], f);
      assert Fragments(s)[1..] == Fragments(s[k + 1..]);
    }
  }

  predicate IsVisible(b: char) { b as int < 0x80 && !('\t' <= b <= '\r') && b != ' ' }

  lemma {:induction false} SpaceIsInvisible(s: string)
    requires AllSpace(s)
    ensures forall i :: 0 <= i < |s| ==> !IsVisible(s[i])
    decreases |s|
  {
    if s != "" {
      var n := SpaceLen(s);
      SpaceIsInvisible(s[n..]);
      forall i | 0 <= i < |s| ensures !IsVisible(s[i]) {
        if i >= n {
          assert s[i] == s[n..][i - n];
        }
      }
    }
  }

  ghost predicate HasVisible(s: string) { exists i :: 0 <= i < |s| && IsVisible(s[i]) }

  lemma VisibleInside(x: string, u: string)
    requires HasVisible(x) || HasVisible(u)
    ensures HasVisible(x + u)
  {
    hide IsVisible;
    if HasVisible(x) {
      var i :| 0 <= i < |x| && IsVisible(x[i]);
      assert (x + u)[i] == x[i];
    } else {
      var i :| 0 <= i < |u| && IsVisible(u[i]);
      assert (x + u)[|x| + i] == u[i];
    }
  }

  lemma ReplacementVisible(t: string, f: nat -> string)
    requires InertForSplit(f) && t != "" && Decimal.AllDigits(t[1..])
    ensures Replacement(t, f) != t ==> HasVisible(Replacement(t, f))
  {
    if Replacement(t, f) != t {
      assert ParseIndex(t[1..]).Some?;
      var x := Replacement(t, f);
      assert InertText(x) && SpaceLen(x) == 0;
      assert IsVisible(x[0]);
    }
  }

  /** Rewriting a code run changes nothing, or leaves something visible. */
  lemma {:induction false} SubstVisible(t: string, f: nat -> string)
    requires InertForSplit(f)
    ensures Subst(t, f) == t || HasVisible(Subst(t, f))
    decreases |t|
  {
    if t != "" {
      hide InertForSplit, HasVisible, Replacement, PlaceholderLen;
      var n := if IsPlaceholder(t) then PlaceholderLen(t) else 1;
      var x := if IsPlaceholder(t) then Replacement(t[..n], f) else t[..1];
      var u := Subst(t[n..], f);
      assert Subst(t, f) == x + u;
      hide Subst;
      assert t == t[..n] + t[n..];
      SubstVisible(t[n..], f);
      if IsPlaceholder(t) {
        ReplacementVisible(t[..n], f);
      }
      hide *;
      if x != t[..n] || u != t[n..] {
        VisibleInside(x, u);
      }
    }
  }

  lemma BlankSubst(t: string, f: nat -> string)
    requires InertForSplit(f)
    ensures AllSpace(Subst(t, f)) == AllSpace(t)
  {
    var u := Subst(t, f);
    SubstVisible(t, f);
    if u != t {
      assert !AllSpace(u) by {
        if AllSpace(u) { SpaceIsInvisible(u); }
      }
      assert t + "" == t;
      if AllSpace(t) {
        SpaceIsInvisible(t);
        SubstPlain(t, "", f);
      }
    }
  }

  lemma BlankRewrite(q: string, f: nat -> string)
    requires InertForSplit(f)
    ensures IsBlank(Rewrite(q, f)) == IsBlank(q)
  {
    RewriteCommutes(q, f);
    var ps, rs := Lex(q), RewritePieces(Lex(q), f);
    forall i | 0 <= i < |ps|
      ensures (IsComment(rs[i].segment) || AllSpace(rs[i].text)) == (IsComment(ps[i].segment) || AllSpace(ps[i].text))
    {
      BlankSubst(ps[i].text, f);
    }
  }

  /** Splitting commutes with rewriting: the statements of the rewritten text are
      the rewritten statements, in order, none gained and none lost. */
  lemma SplitCommutesWithRewriting(s: string, f: nat -> string)
    requires InertForSplit(f)
    ensures Statements(Rewrite(s, f)) == RewriteAll(Statements(s), f)
  {
    SplitRewritten(s, f);
    var qs := Fragments(s);
    forall i | 0 <= i < |qs| ensures IsBlank(Rewrite(qs[i], f)) == IsBlank(qs[i]) {
      BlankRewrite(qs[i], f);
    }
    Seqs.FilterMap(q => !IsBlank(q), q => Rewrite(q, f), qs);
  }

  // -------------------------------------------------------------------- the loop

  /** `out` holds the statements before `start`; no code semicolon lies between
      `start` and the lexer's position `i`. */
  ghost predicate SplitUpTo(sql: string, out: seq<string>, start: nat, i: nat) {
    && start <= i <= |sql|
    && out + Statements(sql[start..]) == Statements(sql)
    && FirstSemi(sql[start..]) == i - start + FirstSemi(sql[i..])
  }

  lemma SkipStep(sql: string, out: seq<string>, start: nat, i: nat, end: nat)
    requires SplitUpTo(sql, out, start, i)
    requires i < |sql| && sql[i] != ';' && end == i + StepLen(sql[i..])
    ensures SplitUpTo(sql, out, start, end)
  {
    hide Statements, StepLen, Opening;
    assert sql[i..][end - i..] == sql[end..];
  }

  lemma SkipByte(sql: string, out: seq<string>, start: nat, i: nat)
    requires SplitUpTo(sql, out, start, i)
    requires i < |sql| && sql[i] != ';' && CodeAt(sql, i)
    ensures SplitUpTo(sql, out, start, i + 1)
  {
    SkipStep(sql, out, start, i, i + 1);
  }

  lemma SplitStart(sql: string)
    ensures SplitUpTo(sql, [], 0, 0)
  {
    assert sql[0..] == sql;
  }

  lemma StatementTaken(sql: string, out: seq<string>, start: nat, i: nat)
    requires SplitUpTo(sql, out, start, i)
    requires i < |sql| && sql[i] == ';'
    ensures SplitUpTo(sql, out + (if IsBlank(sql[start..i]) then [] else [sql[start..i]]), i + 1, i + 1)
  {
    var rest := sql[start..];
    assert FirstSemi(rest) == i - start;
    assert rest[..i - start] == sql[start..i] && rest[i - start + 1..] == sql[i + 1..];
    NonBlankCons(sql[start..i], Fragments(sql[i + 1..]));
  }

  lemma NonBlankCons(q: string, qs: seq<string>)
    ensures NonBlank([q] + qs) == (if IsBlank(q) then [] else [q]) + NonBlank(qs)
  {
    Seqs.FilterCons(x => !IsBlank(x), q, qs);
  }

  method PushStatement(out: seq<string>, stmt: string) returns (r: seq<string>)
    ensures r == out + if IsBlank(stmt) then [] else [stmt]
  {
    var blank := IsBlankStatement(stmt);
    r := if blank then out else out + [stmt];
  }

  /** One turn of the inner loop of `split_statements`. */
  method SplitByte(sql: string, out0: seq<string>, start0: nat, i: nat) returns (out: seq<string>, start: nat)
    requires SplitUpTo(sql, out0, start0, i)
    requires CodeAt(sql, i)
    ensures SplitUpTo(sql, out, start, i + 1)
  {
    if sql[i] == ';' {
      StatementTaken(sql, out0, start0, i);
      out := PushStatement(out0, sql[start0..i]);
      start := i + 1;
    } else {
      SkipByte(sql, out0, start0, i);
      out, start := out0, start0;
    }
  }

  method SplitCodeSpan(sql: string, out0: seq<string>, start0: nat, from: nat,
      end: nat) returns (out: seq<string>, start: nat)
    requires from <= end <= |sql| && CodeRun(sql, from, end)
    requires SplitUpTo(sql, out0, start0, from)
    ensures SplitUpTo(sql, out, start, end)
  {
    out, start := out0, start0;
    for i := from to end
      invariant SplitUpTo(sql, out, start, i)
    {
      assert CodeAt(sql, i);
      out, start := SplitByte(sql, out, start, i);
    }
  }

  lemma LastStatement(sql: string, out: seq<string>, start: nat)
    requires SplitUpTo(sql, out, start, |sql|)
    ensures out + (if IsBlank(sql[start..]) then [] else [sql[start..]]) == Statements(sql)
  {
    assert sql[|sql|..] == "";
    NonBlankCons(sql[start..], []);
    assert [sql[start..]] + [] == [sql[start..]];
  }

  /** The source's `split_statements`. */
  method SplitStatements(sql: string) returns (out: seq<string>)
    ensures out == Statements(sql)
  {
    var spans := Scan(sql);
    out := [];
    var start: nat := 0;
    SplitStart(sql);
    for k := 0 to |spans|
      invariant SplitUpTo(sql, out, start, if k < |spans| then spans[k].start else |sql|)
    {
      var span := spans[k];
      SpanIsStep(sql, spans, k);
      if span.segment != Code {
        NotSemi(sql[span.start..]);
        SkipStep(sql, out, start, span.start, span.end);
      } else {
        out, start := SplitCodeSpan(sql, out, start, span.start, span.end);
      }
    }
    LastStatement(sql, out, start);
    out := PushStatement(out, sql[start..]);
  }
}
