/**
  Tokens, identifier quoting and the target table of a write, src/sql.rs:566-600
  and src/sql.rs:733-796.

  Quoting and tokenising are inverse, so the table name that `RETURNING *` is
  expanded with means what the original statement named.
*/
module SqlTokens {
  import opened Wrappers
  import opened SqlLexer
  import opened SqlRewrite
  import Seqs
  import Decimal

  datatype Token = Token(text: string, quoted: bool)

  const DOT := Token(".", false)

  predicate IsAsciiSpace(b: char) { b in {' ', '\t', '\n', '\r'} || b as int == 0x0C }

  function Upper(s: string): string {
    Seqs.Map((c: char) => if 'a' <= c <= 'z' then (c as int - 32) as char else c, s)
  }

  // ----------------------------------------------------------------------- quoting

  /** `t.replace('"', "\"\"")` */
  function Double(t: string): string {
    if t == "" then "" else (if t[0] == '"' then "\"\"" else t[..1]) + Double(t[1..])
  }

  /** `inner.replace("\"\"", "\"")` */
  function Undouble(t: string): string {
    if t == "" then ""
    else if |t| > 1 && t[0] == '"' && t[1] == '"' then "\"" + Undouble(t[2..])
    else t[..1] + Undouble(t[1..])
  }

  function Quote(name: string): string { "\"" + Double(name) + "\"" }

  /** The identifier a double-quoted span names; an unterminated one keeps its quote. */
  function Unquote(raw: string): string {
    Undouble(if |raw| >= 2 && raw[0] == '"' && raw[|raw| - 1] == '"' then raw[1..|raw| - 1] else raw)
  }

  function QuoteIfNeeded(tok: Token): string {
    if tok.quoted then Quote(tok.text) else tok.text
  }

  // ------------------------------------------------------------------------ tokens

  function WordLen(t: string): (n: nat)
    ensures n <= |t|
    ensures forall i :: 0 <= i < n ==> IsIdentChar(t[i])
    ensures n < |t| ==> !IsIdentChar(t[n])
  {
    if t == "" || !IsIdentChar(t[0]) then 0 else 1 + WordLen(t[1..])
  }

  function CodeTokens(t: string): seq<Token>
    decreases |t|
  {
    if t == "" then []
    else if IsIdentStart(t[0]) || Decimal.IsDigit(t[0]) then
      var n := WordLen(t);
      [Token(t[..n], false)] + CodeTokens(t[n..])
    else if IsAsciiSpace(t[0]) then CodeTokens(t[1..])
    else [Token(t[..1], false)] + CodeTokens(t[1..])
  }

  function PieceTokens(p: Piece): seq<Token> {
    match p.segment
    case DoubleQuoted => [Token(Unquote(p.text), true)]
    case Code => CodeTokens(p.text)
    case _ => [Token(p.text, false)]
  }

  function TokensOf(ps: seq<Piece>): seq<Token> {
    if ps == [] then [] else PieceTokens(ps[0]) + TokensOf(ps[1..])
  }

  function Tokens(s: string): seq<Token> { TokensOf(Lex(s)) }

  lemma TokensOfOne(p: Piece)
    ensures TokensOf([p]) == PieceTokens(p)
  {
    assert [p][1..] == [];
  }

  // --------------------------------------------------------------- quoting inverts

  lemma {:induction false} DoubleLenDouble(t: string, u: string)
    requires u == "" || u[0] != '"'
    ensures DoubleLen(Double(t) + "\"" + u) == |Double(t)| + 1
  {
    var v := Double(t) + "\"" + u;
    if t != "" {
      var k := if t[0] == '"' then 2 else 1;
      DoubleLenDouble(t[1..], u);
      assert v[k..] == Double(t[1..]) + "\"" + u;
    }
  }

  lemma {:induction false} UndoubleDouble(t: string)
    ensures Undouble(Double(t)) == t
  {
    if t != "" {
      UndoubleDouble(t[1..]);
      var k := if t[0] == '"' then 2 else 1;
      assert Double(t)[k..] == Double(t[1..]);
      assert t == t[..1] + t[1..];
    }
  }

  lemma UnquoteQuote(name: string)
    ensures Unquote(Quote(name)) == name
  {
    var q := Quote(name);
    assert q[1..|q| - 1] == Double(name);
    UndoubleDouble(name);
  }

  lemma QuoteStep(name: string, u: string)
    requires u == "" || u[0] != '"'
    ensures Opening(Quote(name) + u) == DoubleQuoted && StepLen(Quote(name) + u) == |Quote(name)|
  {
    DoubleLenDouble(name, u);
    assert (Quote(name) + u)[1..] == Double(name) + "\"" + u;
  }

  /** A quoted name is one span, wherever no other quote follows it. */
  lemma QuoteLexes(name: string, u: string)
    requires u == "" || u[0] != '"'
    ensures Lex(Quote(name) + u) == [Piece(DoubleQuoted, Quote(name))] + Lex(u)
  {
    QuoteStep(name, u);
    LexStep(Quote(name) + u, Quote(name), u);
  }

  /** Quoting any name gives one quoted-identifier span that tokenises back to it. */
  lemma QuoteRoundTrip(name: string)
    ensures Lex(Quote(name)) == [Piece(DoubleQuoted, Quote(name))]
    ensures Tokens(Quote(name)) == [Token(name, true)]
  {
    QuoteLexes(name, "");
    assert Quote(name) + "" == Quote(name);
    assert Lex("") == [];
    UnquoteQuote(name);
    TokensOfOne(Piece(DoubleQuoted, Quote(name)));
  }

  // ------------------------------------------------------------------ dotted names

  /** An unquoted identifier as the tokeniser cuts it out of code. */
  ghost predicate IsWord(w: string) {
    && w != "" && IsIdentStart(w[0])
    && (forall i :: 0 <= i < |w| ==> IsIdentChar(w[i]))
    && CodeRun(w, 0, |w|)
  }

  predicate IsNameToken(tok: Token) { tok.quoted || (tok.text != "" && IsIdentStart(tok.text[0])) }

  ghost predicate IsName(tok: Token) { tok.quoted || IsWord(tok.text) }

  ghost predicate AllNames(names: seq<Token>) { forall i :: 0 <= i < |names| ==> IsName(names[i]) }

  function Dotted(names: seq<Token>): string {
    if names == [] then ""
    else if |names| == 1 then QuoteIfNeeded(names[0])
    else QuoteIfNeeded(names[0]) + "." + Dotted(names[1..])
  }

  function WithDots(names: seq<Token>): seq<Token> {
    if |names| <= 1 then names else [names[0], DOT] + WithDots(names[1..])
  }

  /** A text that no word runs into. */
  predicate EndsWord(u: string) { u == "" || !IsIdentChar(u[0]) }

  lemma {:induction false} TagLenAppend(x: string, first: bool, u: string)
    requires EndsWord(u) && TagLen(x, first) == 0
    ensures TagLen(x + u, first) == 0
  {
    var v := x + u;
    if x != "" {
      if if first then IsIdentStart(x[0]) else IsTagChar(x[0]) {
        TagLenAppend(x[1..], false, u);
        assert v[1..] == x[1..] + u;
      }
    } else {
      assert v == u;
    }
  }

  lemma WordStaysCode(w: string, u: string, j: nat)
    requires IsWord(w) && EndsWord(u) && j < |w|
    ensures CodeAt(w + u, j)
  {
    assert CodeAt(w, j) && IsIdentChar(w[j]);
    assert (w + u)[j..] == w[j..] + u;
    var x := w[j..];
    if x[0] == '$' {
      TagLenAppend(x[1..], true, u);
      assert (x + u)[1..] == x[1..] + u;
    }
  }

  lemma WordLexes(w: string, u: string)
    requires IsWord(w) && EndsWord(u)
    ensures Lex(w + u) == Prepend(Code, w, Lex(u))
  {
    forall j | 0 <= j < |w| ensures CodeAt(w + u, j) {
      WordStaysCode(w, u, j);
    }
    LexCodeRun(w + u, |w|);
    assert (w + u)[..|w|] == w && (w + u)[|w|..] == u;
  }

  lemma DotLexes(u: string)
    ensures Lex("." + u) == Prepend(Code, ".", Lex(u))
  {
    LexStep("." + u, ".", u);
  }

  lemma {:induction false} WordLenIs(w: string, u: string)
    requires (forall i :: 0 <= i < |w| ==> IsIdentChar(w[i])) && EndsWord(u)
    ensures WordLen(w + u) == |w|
  {
    if w == "" {
      assert w + u == u;
    } else {
      WordLenIs(w[1..], u);
      assert (w + u)[1..] == w[1..] + u;
    }
  }

  lemma PrependTokens(text: string, toks: seq<Token>, rest: seq<Piece>)
    requires forall b :: CodeTokens(text + b) == toks + CodeTokens(b)
    ensures TokensOf(Prepend(Code, text, rest)) == toks + TokensOf(rest)
  {
    var ps := Prepend(Code, text, rest);
    if rest != [] && rest[0].segment == Code {
      assert ps[1..] == rest[1..];
      assert CodeTokens(text + rest[0].text) == toks + CodeTokens(rest[0].text);
    } else {
      assert ps[1..] == rest;
      assert text + "" == text && CodeTokens(text + "") == toks + CodeTokens("");
    }
  }

  lemma DotTokens(rest: seq<Piece>)
    ensures TokensOf(Prepend(Code, ".", rest)) == [DOT] + TokensOf(rest)
  {
    forall b ensures CodeTokens("." + b) == [DOT] + CodeTokens(b) {
      var s := "." + b;
      assert s[..1] == "." && s[1..] == b;
    }
    PrependTokens(".", [DOT], rest);
  }

  lemma WordDotTokens(w: string, rest: seq<Piece>)
    requires IsWord(w)
    ensures TokensOf(Prepend(Code, w + ".", rest)) == [Token(w, false), DOT] + TokensOf(rest)
  {
    forall b ensures CodeTokens((w + ".") + b) == [Token(w, false), DOT] + CodeTokens(b) {
      assert (w + ".") + b == w + ("." + b);
      WordThenTokens(w, "." + b);
      ByteThenTokens('.', b);
    }
    PrependTokens(w + ".", [Token(w, false), DOT], rest);
  }

  lemma WordThenTokens(w: string, u: string)
    requires w != "" && IsIdentStart(w[0]) && EndsWord(u)
    requires forall i :: 0 <= i < |w| ==> IsIdentChar(w[i])
    ensures CodeTokens(w + u) == [Token(w, false)] + CodeTokens(u)
  {
    WordLenIs(w, u);
    assert (w + u)[..|w|] == w && (w + u)[|w|..] == u;
  }

  lemma ByteThenTokens(c: char, u: string)
    requires !IsIdentStart(c) && !Decimal.IsDigit(c)
    ensures CodeTokens([c] + u) == (if IsAsciiSpace(c) then [] else [Token([c], false)]) + CodeTokens(u)
  {
    assert ([c] + u)[..1] == [c] && ([c] + u)[1..] == u;
  }

  lemma TokensCons(p: Piece, rest: seq<Piece>)
    ensures TokensOf([p] + rest) == PieceTokens(p) + TokensOf(rest)
  {
    assert ([p] + rest)[1..] == rest;
  }

  lemma QuotedDotTokens(name: string, u: string)
    ensures Tokens(Quote(name) + ("." + u)) == [Token(name, true), DOT] + Tokens(u)
  {
    hide Lex, TokensOf, Prepend, CodeTokens, Unquote, Quote;
    var d := "." + u;
    QuoteLexes(name, d);
    TokensCons(Piece(DoubleQuoted, Quote(name)), Lex(d));
    UnquoteQuote(name);
    DotLexes(u);
    DotTokens(Lex(u));
  }

  lemma NameDotTokens(tok: Token, u: string)
    requires IsName(tok)
    ensures Tokens(QuoteIfNeeded(tok) + "." + u) == [tok, DOT] + Tokens(u)
  {
    assert QuoteIfNeeded(tok) + "." + u == QuoteIfNeeded(tok) + ("." + u);
    if tok.quoted {
      QuotedDotTokens(tok.text, u);
    } else {
      WordLexes(tok.text, "." + u);
      DotLexes(u);
      PrependTwice(tok.text, ".", Lex(u));
      WordDotTokens(tok.text, Lex(u));
    }
  }

  lemma NameTokens(tok: Token)
    requires IsName(tok)
    ensures Tokens(QuoteIfNeeded(tok)) == [tok]
  {
    if tok.quoted {
      QuoteRoundTrip(tok.text);
    } else {
      var w := tok.text;
      WordLexes(w, "");
      WordLenIs(w, "");
      assert w + "" == w && w[..|w|] == w && w[|w|..] == "";
      assert CodeTokens(w) == [tok] + CodeTokens("");
      assert Lex(w) == [Piece(Code, w)];
      TokensOfOne(Piece(Code, w));
    }
  }

  /** A dotted name, quoted part by part, tokenises back to its parts. */
  lemma {:induction false} DottedRoundTrip(names: seq<Token>)
    requires names != [] && AllNames(names)
    ensures Tokens(Dotted(names)) == WithDots(names)
  {
    if |names| == 1 {
      NameTokens(names[0]);
      assert names == [names[0]];
    } else {
      DottedRoundTrip(names[1..]);
      NameDotTokens(names[0], Dotted(names[1..]));
    }
  }

  // ------------------------------------------------- the names a statement holds

  /** Every unquoted name among the tokens of a text is such a word. */
  lemma {:induction false} TokensAreWords(s: string, tok: Token)
    requires tok in Tokens(s) && IsNameToken(tok)
    ensures IsName(tok)
    decreases |s|
  {
    LexFirst(s);
    var ps := Lex(s);
    var n := |ps[0].text|;
    if tok in TokensOf(ps[1..]) {
      TokensAreWords(s[n..], tok);
    } else if ps[0].segment == Code {
      assert s[0..n] == ps[0].text;
      CodeTokensAreWords(s, 0, n, tok);
    } else if !tok.quoted {
      assert tok == Token(ps[0].text, false);
      OpenerIsNoName(s);
    }
  }

  lemma OpenerIsNoName(s: string)
    requires s != "" && Opening(s) != Code
    ensures !IsIdentStart(s[0])
  {
  }

  lemma {:induction false} CodeTokensAreWords(s: string, i: nat, end: nat, tok: Token)
    requires i <= end <= |s| && CodeRun(s, 0, end)
    requires tok in CodeTokens(s[i..end]) && IsNameToken(tok)
    ensures IsName(tok)
    decreases end - i
  {
    var t := s[i..end];
    if IsIdentStart(t[0]) || Decimal.IsDigit(t[0]) {
      var n := WordLen(t);
      assert t[n..] == s[i + n..end];
      if tok in CodeTokens(t[n..]) {
        CodeTokensAreWords(s, i + n, end, tok);
      } else {
        assert t[..n] == s[i..i + n];
        RunIsWord(s, i, i + n);
      }
    } else {
      assert t[1..] == s[i + 1..end];
      if tok in CodeTokens(t[1..]) {
        CodeTokensAreWords(s, i + 1, end, tok);
      }
    }
  }

  lemma RunIsWord(s: string, i: nat, j: nat)
    requires i < j <= |s| && CodeRun(s, 0, j) && IsIdentStart(s[i])
    requires forall k :: i <= k < j ==> IsIdentChar(s[k])
    ensures IsWord(s[i..j])
  {
    var w := s[i..j];
    forall k | 0 <= k < |w| ensures CodeAt(w, k) {
      assert CodeAt(s, i + k);
      CutStaysCode(s[i + k..], |w| - k);
      assert s[i + k..][..|w| - k] == w[k..];
    }
  }

  // -------------------------------------------------------------- the target table

  /** The name tokens from `i` on, as far as dots join them; `None` if a part is
      missing (src/sql.rs:772-787). */
  function NameFrom(toks: seq<Token>, i: nat): Option<seq<Token>>
    decreases |toks| - i
  {
    if i >= |toks| || !IsNameToken(toks[i]) then None
    else if i + 1 < |toks| && toks[i + 1] == DOT then
      match NameFrom(toks, i + 2)
      case Some(rest) => Some([toks[i]] + rest)
      case None => None
    else Some([toks[i]])
  }

  function SkipComments(toks: seq<Token>, i: nat): (n: nat)
    requires i <= |toks|
    ensures i <= n <= |toks|
    decreases |toks| - i
  {
    if i < |toks| && ("--" <= toks[i].text || "/*" <= toks[i].text) then SkipComments(toks, i + 1) else i
  }

  /** Tokens between the leading keyword and the table name, counting the keyword. */
  function KeywordTokens(toks: seq<Token>, idx: nat): Option<nat>
    requires idx <= |toks|
  {
    if idx == |toks| || toks[idx].quoted then None
    else
      var verb := Upper(toks[idx].text);
      if verb == "UPDATE" then Some(1)
      else if verb !in {"INSERT", "MERGE", "DELETE"} then None
      else if idx + 1 == |toks| || toks[idx + 1].quoted then None
      else if Upper(toks[idx + 1].text) == (if verb == "DELETE" then "FROM" else "INTO") then Some(2)
      else None
  }

  /** Comments in front are passed over, and nothing else is. */
  lemma {:induction false} CommentsExactly(toks: seq<Token>, i: nat)
    requires i <= |toks|
    ensures var n := SkipComments(toks, i);
      && (forall k :: i <= k < n ==> "--" <= toks[k].text || "/*" <= toks[k].text)
      && (n < |toks| ==> !("--" <= toks[n].text) && !("/*" <= toks[n].text))
    decreases |toks| - i
  {
    if i < |toks| && ("--" <= toks[i].text || "/*" <= toks[i].text) {
      CommentsExactly(toks, i + 1);
    }
  }

  /** A name goes on as long as dots do. */
  lemma {:induction false} NameGoesOn(toks: seq<Token>, i: nat)
    ensures NameFrom(toks, i).Some? ==>
      var n := i + |WithDots(NameFrom(toks, i).value)|; n <= |toks| && (n < |toks| ==> toks[n] != Token(".", false))
    ensures NameFrom(toks, i).None? <==>
      i >= |toks| || !IsNameToken(toks[i]) ||
      (i + 1 < |toks| && toks[i + 1] == Token(".", false) && NameFrom(toks, i + 2).None?)
    decreases |toks| - i
  {
    if i < |toks| && IsNameToken(toks[i]) && i + 1 < |toks| && toks[i + 1] == DOT {
      NameGoesOn(toks, i + 2);
      if NameFrom(toks, i + 2).Some? {
        var rest := NameFrom(toks, i + 2).value;
        assert ([toks[i]] + rest)[1..] == rest;
        NameFromIsSlice(toks, i + 2);
      }
    }
  }

  /** Which words stand in front of a table's name: UPDATE; INSERT INTO; MERGE INTO; DELETE
      FROM; of any case, and not quoted. */
  lemma VerbExactly(toks: seq<Token>, idx: nat)
    requires idx <= |toks|
    ensures KeywordTokens(toks, idx) == Some(1) <==>
      idx < |toks| && !toks[idx].quoted && Upper(toks[idx].text) == "UPDATE"
    ensures KeywordTokens(toks, idx) == Some(2) <==>
      && idx + 1 < |toks| && !toks[idx].quoted && !toks[idx + 1].quoted
      && (((Upper(toks[idx].text) == "INSERT" || Upper(toks[idx].text) == "MERGE") &&
             Upper(toks[idx + 1].text) == "INTO")
          || (Upper(toks[idx].text) == "DELETE" && Upper(toks[idx + 1].text) == "FROM"))
    ensures KeywordTokens(toks, idx) in {None, Some(1), Some(2)}
  {
    hide Upper;
  }

  /** Where the name of the written table begins among the tokens, and its parts. */
  function TargetAt(toks: seq<Token>): Option<(nat, seq<Token>)> {
    var idx := SkipComments(toks, 0);
    match KeywordTokens(toks, idx)
    case None => None
    case Some(skip) =>
      match NameFrom(toks, idx + skip)
      case None => None
      case Some(names) => Some((idx + skip, names))
  }

  lemma {:induction false} NameFromIsSlice(toks: seq<Token>, i: nat)
    requires NameFrom(toks, i).Some?
    ensures var names := NameFrom(toks, i).value;
      && names != []
      && i + |WithDots(names)| <= |toks|
      && WithDots(names) == toks[i..i + |WithDots(names)|]
      && forall k :: 0 <= k < |names| ==> names[k] in toks && IsNameToken(names[k])
    decreases |toks| - i
  {
    if i + 1 < |toks| && toks[i + 1] == DOT {
      NameFromIsSlice(toks, i + 2);
      var rest := NameFrom(toks, i + 2).value;
      var names := [toks[i]] + rest;
      assert names[1..] == rest;
      var n := |WithDots(rest)|;
      assert toks[i..i + 2 + n] == [toks[i], DOT] + toks[i + 2..i + 2 + n];
    } else {
      assert toks[i..i + 1] == [toks[i]];
    }
  }

  /** The source's `dml_target_table`. */
  method DmlTargetTable(sql: string) returns (name: Option<string>)
    ensures name == match TargetAt(Tokens(sql))
                    case Some(at) => Some(Dotted(at.1))
                    case None => None
  {
    var toks := TokensMethod(sql);
    var idx := 0;
    while idx < |toks| && ("--" <= toks[idx].text || "/*" <= toks[idx].text)
      invariant 0 <= idx <= |toks|
      invariant SkipComments(toks, idx) == SkipComments(toks, 0)
    {
      idx := idx + 1;
    }
    match KeywordTokens(toks, idx) {
      case None =>
        return None;
      case Some(skip) =>
        name := NameLoop(toks, idx + skip);
    }
  }

  /** Appending a part to a name under construction. */
  function Appended(name: string, rest: Option<seq<Token>>): Option<string> {
    match rest
    case None => None
    case Some(names) => Some(name + Dotted(names))
  }

  lemma StartName(names: Option<seq<Token>>)
    ensures Appended("", names) == match names case Some(ns) => Some(Dotted(ns)) case None => None
  {
    match names {
      case Some(ns) => assert "" + Dotted(ns) == Dotted(ns);
      case None =>
    }
  }

  method NameLoop(toks: seq<Token>, from: nat) returns (r: Option<string>)
    ensures r == match NameFrom(toks, from)
                 case Some(names) => Some(Dotted(names))
                 case None => None
  {
    var name := "";
    var i := from;
    StartName(NameFrom(toks, from));
    while true
      invariant Appended(name, NameFrom(toks, i)) == Appended("", NameFrom(toks, from))
      decreases |toks| - i
    {
      if i >= |toks| || !IsNameToken(toks[i]) {
        return None;
      }
      AppendPart(toks, i, name);
      name := name + QuoteIfNeeded(toks[i]);
      if i + 1 < |toks| && toks[i + 1] == DOT {
        name := name + ".";
        i := i + 2;
      } else {
        return Some(name);
      }
    }
  }

  lemma AppendPart(toks: seq<Token>, i: nat, name: string)
    requires i < |toks| && IsNameToken(toks[i])
    ensures var part := name + QuoteIfNeeded(toks[i]);
      Appended(name, NameFrom(toks, i)) ==
        if i + 1 < |toks| && toks[i + 1] == DOT then Appended(part + ".", NameFrom(toks, i + 2)) else Some(part)
  {
    if i + 1 < |toks| && toks[i + 1] == DOT && NameFrom(toks, i + 2).Some? {
      NameFromIsSlice(toks, i + 2);
      DottedCons(name, toks[i], NameFrom(toks, i + 2).value);
    }
  }

  lemma DottedCons(name: string, tok: Token, rest: seq<Token>)
    requires rest != []
    ensures name + Dotted([tok] + rest) == name + QuoteIfNeeded(tok) + "." + Dotted(rest)
  {
    var names := [tok] + rest;
    assert names[1..] == rest;
  }

  lemma {:induction false} TokensSnoc(ps: seq<Piece>, p: Piece)
    ensures TokensOf(ps + [p]) == TokensOf(ps) + PieceTokens(p)
  {
    if ps == [] {
      assert ps + [p] == [p];
      TokensOfOne(p);
    } else {
      TokensSnoc(ps[1..], p);
      assert (ps + [p])[1..] == ps[1..] + [p];
    }
  }

  /** The inner loop of `tokens`, over one code span. */
  method CodeTokensMethod(t: string) returns (out: seq<Token>)
    ensures out == CodeTokens(t)
  {
    out := [];
    var i := 0;
    assert t[0..] == t;
    while i < |t|
      invariant 0 <= i <= |t|
      invariant CodeTokensLeft(t, out, i)
    {
      if IsIdentStart(t[i]) || Decimal.IsDigit(t[i]) {
        var start := i;
        i := WordEnd(t, i);
        WordTaken(t, start, i);
        Took(t, out, start, [Token(t[start..i], false)], i);
        out := out + [Token(t[start..i], false)];
      } else {
        ByteTaken(t, i);
        if !IsAsciiSpace(t[i]) {
          Took(t, out, i, [Token(t[i..i + 1], false)], i + 1);
          out := out + [Token(t[i..i + 1], false)];
        } else {
          Took(t, out, i, [], i + 1);
        }
        i := i + 1;
      }
    }
    assert t[|t|..] == "" && out + [] == out;
  }

  ghost predicate CodeTokensLeft(t: string, out: seq<Token>, i: nat) {
    i <= |t| && out + CodeTokens(t[i..]) == CodeTokens(t)
  }

  lemma Took(t: string, out: seq<Token>, i: nat, toks: seq<Token>, j: nat)
    requires CodeTokensLeft(t, out, i) && j <= |t|
    requires CodeTokens(t[i..]) == toks + CodeTokens(t[j..])
    ensures CodeTokensLeft(t, out + toks, j)
    ensures toks == [] ==> CodeTokensLeft(t, out, j)
  {
    Seqs.Advance(CodeTokens(t), out, CodeTokens(t[i..]), toks, CodeTokens(t[j..]));
    assert out + [] == out;
  }

  lemma WordTaken(t: string, i: nat, j: nat)
    requires i < |t| && (IsIdentStart(t[i]) || Decimal.IsDigit(t[i])) && j == i + WordLen(t[i..])
    ensures i < j && CodeTokens(t[i..]) == [Token(t[i..j], false)] + CodeTokens(t[j..])
  {
    assert t[i..][..j - i] == t[i..j] && t[i..][j - i..] == t[j..];
  }

  lemma ByteTaken(t: string, i: nat)
    requires i < |t| && !IsIdentStart(t[i]) && !Decimal.IsDigit(t[i])
    ensures CodeTokens(t[i..]) ==
      (if IsAsciiSpace(t[i]) then [] else [Token(t[i..i + 1], false)]) + CodeTokens(t[i + 1..])
  {
    assert t[i..][..1] == t[i..i + 1] && t[i..][1..] == t[i + 1..];
  }

  method WordEnd(t: string, from: nat) returns (i: nat)
    requires from <= |t|
    ensures i == from + WordLen(t[from..])
  {
    i := from;
    while i < |t| && IsIdentChar(t[i])
      invariant from <= i <= |t|
      invariant i + WordLen(t[i..]) == from + WordLen(t[from..])
    {
      assert t[i..][1..] == t[i + 1..];
      i := i + 1;
    }
  }

  /** The source's `tokens`. */
  method TokensMethod(sql: string) returns (out: seq<Token>)
    ensures out == Tokens(sql)
  {
    hide Lex, CodeTokens, Unquote, Tiles;
    var spans := Scan(sql);
    ghost var ps := Lex(sql);
    out := [];
    for k := 0 to |spans|
      invariant out == TokensOf(ps[..k])
    {
      var text := sql[spans[k].start..spans[k].end];
      assert ps[k] == Piece(spans[k].segment, text);
      TokensSnoc(ps[..k], ps[k]);
      assert ps[..k] + [ps[k]] == ps[..k + 1];
      match spans[k].segment {
        case DoubleQuoted =>
          out := out + [Token(Unquote(text), true)];
        case Code =>
          var toks := CodeTokensMethod(text);
          out := out + toks;
        case _ =>
          out := out + [Token(text, false)];
      }
    }
    assert ps[..|spans|] == ps;
  }

  /** The table name built for `RETURNING *` tokenises to exactly the tokens that
      name the table in the original statement, dots and quoted parts included. */
  lemma TargetTableRoundTrip(sql: string)
    requires TargetAt(Tokens(sql)).Some?
    ensures var (at, names) := TargetAt(Tokens(sql)).value;
      var n := |WithDots(names)|;
      at + n <= |Tokens(sql)| && Tokens(Dotted(names)) == Tokens(sql)[at..at + n]
  {
    hide Lex, TokensOf, Dotted, IsName, IsNameToken, KeywordTokens;
    var toks := Tokens(sql);
    var (at, names) := TargetAt(toks).value;
    NameFromIsSlice(toks, at);
    forall k | 0 <= k < |names| ensures IsName(names[k]) {
      TokensAreWords(sql, names[k]);
    }
    DottedRoundTrip(names);
  }
}
