/**
  The lexer of src/sql.rs. A `string` here is the UTF-8 encoding of a Rust
  `str`, one `char` per byte, so offsets are byte offsets.

  `Lex` is the specification: it works on a suffix of the text and never looks
  behind, which is what lets it restart at any code position. `Scan` is the
  source's loop over offsets, proved to produce exactly those pieces.
*/
module SqlLexer {
  import opened Wrappers
  import Decimal

  datatype Segment = Code | SingleQuoted | DoubleQuoted | DollarQuoted | LineComment | BlockComment

  datatype Span = Span(segment: Segment, start: nat, end: nat)

  /** A span together with its text, free of offsets. */
  datatype Piece = Piece(segment: Segment, text: string)

  predicate IsAlpha(b: char) { 'a' <= b <= 'z' || 'A' <= b <= 'Z' }

  predicate IsIdentStart(b: char) { IsAlpha(b) || b == '_' || b as int >= 0x80 }

  /** What may follow the first byte of a dollar-quote tag. */
  predicate IsTagChar(b: char) { IsIdentStart(b) || Decimal.IsDigit(b) }

  predicate IsIdentChar(b: char) { IsTagChar(b) || b == '$' }

  // ---------------------------------------------------------------- the pieces

  /** Bytes of a dollar-quote tag up to and including its closing `$`, or 0 if
      `s`, the text after the opening `$`, does not continue as a delimiter. */
  function TagLen(s: string, first: bool): (n: nat)
    ensures n <= |s|
    ensures n > 0 ==> s[n - 1] == '$'
  {
    if s == "" then 0
    else if s[0] == '$' then 1
    else if (if first then IsIdentStart(s[0]) else IsTagChar(s[0])) then
      var rest := TagLen(s[1..], false);
      if rest == 0 then 0 else rest + 1
    else 0
  }

  function DelimLen(s: string): (n: nat)
    requires s != "" && s[0] == '$'
    ensures n == 0 || 2 <= n <= |s|
  {
    var rest := TagLen(s[1..], true);
    if rest == 0 then 0 else rest + 1
  }

  /** Bytes of a `'...'` literal after its opening quote. */
  function SingleLen(s: string): (n: nat)
    ensures n <= |s|
  {
    if s == "" then 0
    else if s[0] == '\\' && |s| > 1 then 2 + SingleLen(s[2..])
    else if s[0] == '\'' then
      if |s| > 1 && s[1] == '\'' then 2 + SingleLen(s[2..]) else 1
    else 1 + SingleLen(s[1..])
  }

  /** Bytes of a `"..."` identifier after its opening quote. */
  function DoubleLen(s: string): (n: nat)
    ensures n <= |s|
  {
    if s == "" then 0
    else if s[0] == '"' then
      if |s| > 1 && s[1] == '"' then 2 + DoubleLen(s[2..]) else 1
    else 1 + DoubleLen(s[1..])
  }

  /** Bytes of a dollar-quoted literal after its opening delimiter. */
  function DollarLen(s: string, delim: string): (n: nat)
    requires delim != ""
    ensures n <= |s|
    ensures n < |s| ==> |delim| <= n
  {
    if s == "" then 0
    else if delim <= s then |delim|
    else 1 + DollarLen(s[1..], delim)
  }

  function LineLen(s: string): (n: nat)
    ensures n <= |s|
    ensures n < |s| ==> s[n] == '\n'
  {
    if s == "" || s[0] == '\n' then 0 else 1 + LineLen(s[1..])
  }

  /** Bytes of a block comment still `depth` deep. */
  function BlockLen(s: string, depth: nat): (n: nat)
    ensures n <= |s|
  {
    if s == "" || depth == 0 then 0
    else if "/*" <= s then 2 + BlockLen(s[2..], depth + 1)
    else if "*/" <= s then 2 + BlockLen(s[2..], depth - 1)
    else 1 + BlockLen(s[1..], depth)
  }

  /** What opens at the head of `s`; `Code` when nothing does. */
  function Opening(s: string): Segment
    requires s != ""
  {
    if s[0] == '\'' then SingleQuoted
    else if s[0] == '"' then DoubleQuoted
    else if s[0] == '$' && DelimLen(s) > 0 then DollarQuoted
    else if "--" <= s then LineComment
    else if "/*" <= s then BlockComment
    else Code
  }

  /** Nothing opens at offset `j`. */
  predicate CodeAt(s: string, j: nat) { j < |s| && Opening(s[j..]) == Code }

  ghost predicate CodeRun(s: string, from: nat, end: nat) {
    forall j :: from <= j < end ==> CodeAt(s, j)
  }

  /** Bytes the lexer takes from the head of `s` in one step: a whole literal
      or comment, or a single byte of code. */
  function StepLen(s: string): (n: nat)
    requires s != ""
    ensures 1 <= n <= |s|
  {
    match Opening(s)
    case Code => 1
    case SingleQuoted => 1 + SingleLen(s[1..])
    case DoubleQuoted => 1 + DoubleLen(s[1..])
    case DollarQuoted => DelimLen(s) + DollarLen(s[DelimLen(s)..], s[..DelimLen(s)])
    case LineComment => assert s[0] != '\n'; LineLen(s)
    case BlockComment => 2 + BlockLen(s[2..], 1)
  }

  /** Put `text` in front of `rest`, joining two runs of code into one. */
  function Prepend(segment: Segment, text: string, rest: seq<Piece>): seq<Piece> {
    if segment == Code && rest != [] && rest[0].segment == Code
    then [Piece(Code, text + rest[0].text)] + rest[1..]
    else [Piece(segment, text)] + rest
  }

  function Lex(s: string): seq<Piece>
    decreases |s|
  {
    if s == "" then []
    else Prepend(Opening(s), s[..StepLen(s)], Lex(s[StepLen(s)..]))
  }

  lemma LexStep(s: string, head: string, tail: string)
    requires s != "" && s == head + tail && |head| == StepLen(s)
    ensures Lex(s) == Prepend(Opening(s), head, Lex(tail))
  {
    assert s[..|head|] == head && s[|head|..] == tail;
  }

  function JoinText(ps: seq<Piece>): string {
    if ps == [] then "" else ps[0].text + JoinText(ps[1..])
  }

  // ---------------------------------------------------- structure of the pieces

  ghost predicate NoAdjacentCode(ps: seq<Piece>) {
    forall i, j :: 0 <= i < j < |ps| && j == i + 1 ==> ps[i].segment != Code || ps[j].segment != Code
  }

  /** The pieces tile the input, none is empty, no two runs of code meet, and no
      literal or comment opens with a digit. */
  lemma {:induction false} LexStructure(s: string)
    ensures JoinText(Lex(s)) == s
    ensures forall p :: p in Lex(s) ==> Sound(p)
    ensures NoAdjacentCode(Lex(s))
    decreases |s|
  {
    hide Opening, StepLen, Prepend, Sound;
    if s != "" {
      var n := StepLen(s);
      LexStructure(s[n..]);
      StepSound(s);
      JoinPrepend(Opening(s), s[..n], Lex(s[n..]));
      PrependStructure(Opening(s), s[..n], Lex(s[n..]));
      assert s == s[..n] + s[n..];
    }
  }

  lemma JoinPrepend(segment: Segment, text: string, rest: seq<Piece>)
    ensures JoinText(Prepend(segment, text, rest)) == text + JoinText(rest)
  {
    if segment == Code && rest != [] && rest[0].segment == Code {
      assert Prepend(segment, text, rest)[1..] == rest[1..];
      assert (text + rest[0].text) + JoinText(rest[1..]) == text + (rest[0].text + JoinText(rest[1..]));
    } else {
      assert Prepend(segment, text, rest)[1..] == rest;
    }
  }

  lemma StepSound(s: string)
    requires s != ""
    ensures Sound(Piece(Opening(s), s[..StepLen(s)]))
  {
  }

  ghost predicate Sound(p: Piece) { p.text != "" && (p.segment != Code ==> !Decimal.IsDigit(p.text[0])) }

  lemma PrependStructure(segment: Segment, text: string, rest: seq<Piece>)
    requires Sound(Piece(segment, text))
    requires forall p :: p in rest ==> Sound(p)
    requires NoAdjacentCode(rest)
    ensures forall p :: p in Prepend(segment, text, rest) ==> Sound(p)
    ensures NoAdjacentCode(Prepend(segment, text, rest))
  {
  }

  // ------------------------------------------------------- how far a step looks

  /** A tail that a literal or comment ending in front of `t` cannot tell from
      `t`: it is cut off, or begins alike, or `t` began with a `$`. */
  predicate TailOk(t: string, u: string) {
    u == "" || (t != "" && (u[0] == t[0] || (t[0] == '$' && u[0] != '\'' && u[0] != '"')))
  }

  lemma {:induction false} TagLenPrefix(s: string, first: bool, k: nat, u: string)
    requires TagLen(s, first) > 0
    requires TagLen(s, first) <= k <= |s|
    ensures TagLen(s[..k] + u, first) == TagLen(s, first)
  {
    var v := s[..k] + u;
    assert v[0] == s[0];
    if s[0] != '$' {
      TagLenPrefix(s[1..], false, k - 1, u);
      assert v[1..] == s[1..][..k - 1] + u;
    }
  }

  /** Bytes one step of a `'...'` literal takes, 0 at its closing quote. */
  function SingleMove(s: string): (k: nat)
    requires s != ""
    ensures k <= |s| && SingleLen(s) == if k == 0 then 1 else k + SingleLen(s[k..])
  {
    if s[0] == '\\' && |s| > 1 then 2
    else if s[0] == '\'' then if |s| > 1 && s[1] == '\'' then 2 else 0
    else 1
  }

  /** The move looks at no more than the byte after it. */
  lemma SingleMoveLocal(s: string, v: string)
    requires |s| > 1 && v != "" && s[0] == v[0]
    requires if |v| > 1 then s[1] == v[1] || (SingleMove(s) == 0 && v[1] != '\'') else SingleMove(s) < 2
    ensures SingleMove(s) == SingleMove(v)
  {
  }

  lemma {:induction false} SingleStable(s: string, u: string)
    requires TailOk(s[SingleLen(s)..], u)
    ensures SingleLen(s[..SingleLen(s)] + u) == SingleLen(s)
    decreases |s|
  {
    var n := SingleLen(s);
    if n == |s| {
      assert s[..n] + u == s;
    } else {
      var k := SingleMove(s);
      if k > 0 {
        assert s[k..][n - k..] == s[n..];
        SingleStable(s[k..], u);
      }
      SingleStableStep(s, k, u, s[..n] + u);
    }
  }

  lemma SingleStableStep(s: string, k: nat, u: string, v: string)
    requires SingleLen(s) < |s| && k == SingleMove(s)
    requires TailOk(s[SingleLen(s)..], u) && v == s[..SingleLen(s)] + u
    requires k > 0 ==> SingleLen(s[k..][..SingleLen(s[k..])] + u) == SingleLen(s[k..])
    ensures SingleLen(v) == SingleLen(s)
  {
    var n := SingleLen(s);
    if k > 0 {
      SingleTakesSome(s[k..]);
      SingleMoveLocal(s, v);
      TakeDrop(s, n, k, u, v);
    } else {
      SingleMoveLocal(s, v);
    }
  }

  lemma SingleTakesSome(s: string)
    requires s != ""
    ensures SingleLen(s) > 0
  {
    assert SingleMove(s) <= |s|;
  }

  lemma TakeDrop(s: string, n: nat, k: nat, u: string, v: string)
    requires k <= n <= |s| && v == s[..n] + u
    ensures v[k..] == s[k..][..n - k] + u
  {
  }

  /** The same for a `"..."` identifier. */
  function DoubleMove(s: string): (k: nat)
    requires s != ""
    ensures k <= |s| && DoubleLen(s) == if k == 0 then 1 else k + DoubleLen(s[k..])
  {
    if s[0] == '"' then if |s| > 1 && s[1] == '"' then 2 else 0 else 1
  }

  lemma DoubleMoveLocal(s: string, v: string)
    requires |s| > 1 && v != "" && s[0] == v[0]
    requires if |v| > 1 then s[1] == v[1] || (DoubleMove(s) == 0 && v[1] != '"') else DoubleMove(s) < 2
    ensures DoubleMove(s) == DoubleMove(v)
  {
  }

  lemma {:induction false} DoubleStable(s: string, u: string)
    requires TailOk(s[DoubleLen(s)..], u)
    ensures DoubleLen(s[..DoubleLen(s)] + u) == DoubleLen(s)
    decreases |s|
  {
    var n := DoubleLen(s);
    if n == |s| {
      assert s[..n] + u == s;
    } else {
      var k := DoubleMove(s);
      if k > 0 {
        assert s[k..][n - k..] == s[n..];
        DoubleStable(s[k..], u);
      }
      DoubleStableStep(s, k, u, s[..n] + u);
    }
  }

  lemma DoubleStableStep(s: string, k: nat, u: string, v: string)
    requires DoubleLen(s) < |s| && k == DoubleMove(s)
    requires TailOk(s[DoubleLen(s)..], u) && v == s[..DoubleLen(s)] + u
    requires k > 0 ==> DoubleLen(s[k..][..DoubleLen(s[k..])] + u) == DoubleLen(s[k..])
    ensures DoubleLen(v) == DoubleLen(s)
  {
    var n := DoubleLen(s);
    if k > 0 {
      DoubleTakesSome(s[k..]);
      DoubleMoveLocal(s, v);
      TakeDrop(s, n, k, u, v);
    } else {
      DoubleMoveLocal(s, v);
    }
  }

  lemma DoubleTakesSome(s: string)
    requires s != ""
    ensures DoubleLen(s) > 0
  {
    assert DoubleMove(s) <= |s|;
  }

  lemma {:induction false} DollarStable(s: string, delim: string, u: string)
    requires delim != ""
    requires DollarLen(s, delim) == |s| ==> u == ""
    ensures DollarLen(s[..DollarLen(s, delim)] + u, delim) == DollarLen(s, delim)
  {
    var n := DollarLen(s, delim);
    var v := s[..n] + u;
    if n == |s| {
      assert v == s;
    } else if delim <= s {
      assert v[..|delim|] == delim;
    } else {
      DollarStable(s[1..], delim, u);
      assert v[1..] == s[1..][..n - 1] + u;
      assert |delim| <= n;
      assert v[..|delim|] == s[..|delim|];
    }
  }

  lemma {:induction false} LineStable(s: string, u: string)
    requires TailOk(s[LineLen(s)..], u)
    ensures LineLen(s[..LineLen(s)] + u) == LineLen(s)
  {
    var n := LineLen(s);
    var v := s[..n] + u;
    if n == |s| {
      assert v == s;
    } else if n > 0 {
      assert s[1..][n - 1..] == s[n..];
      LineStable(s[1..], u);
      assert v[1..] == s[1..][..n - 1] + u;
    }
  }

  /** Bytes one step of a block comment takes, and the depth after it. */
  function BlockMove(s: string, depth: nat): (nat, nat)
    requires s != "" && depth > 0
    ensures var (k, d) := BlockMove(s, depth); 1 <= k <= |s| && BlockLen(s, depth) == k + BlockLen(s[k..], d)
  {
    if "/*" <= s then (2, depth + 1) else if "*/" <= s then (2, depth - 1) else (1, depth)
  }

  lemma BlockMoveLocal(s: string, v: string, depth: nat)
    requires |s| > 1 && |v| > 1 && depth > 0
    requires s[0] == v[0] && s[1] == v[1]
    ensures BlockMove(s, depth) == BlockMove(v, depth)
  {
  }

  lemma {:induction false} BlockStable(s: string, depth: nat, u: string)
    requires BlockLen(s, depth) == |s| ==> u == ""
    ensures BlockLen(s[..BlockLen(s, depth)] + u, depth) == BlockLen(s, depth)
  {
    var n := BlockLen(s, depth);
    if n == |s| {
      assert s[..n] + u == s;
    } else if depth > 0 {
      var k, d := BlockMove(s, depth).0, BlockMove(s, depth).1;
      BlockStable(s[k..], d, u);
      BlockStableStep(s, depth, k, d, u, s[..n] + u);
    }
  }

  lemma BlockStableStep(s: string, depth: nat, k: nat, d: nat, u: string, v: string)
    requires depth > 0 && BlockLen(s, depth) < |s| && BlockMove(s, depth) == (k, d)
    requires v == s[..BlockLen(s, depth)] + u
    requires BlockLen(s[k..][..BlockLen(s[k..], d)] + u, d) == BlockLen(s[k..], d)
    ensures BlockLen(v, depth) == BlockLen(s, depth)
  {
    var n := BlockLen(s, depth);
    BlockTakesTwo(s, depth);
    BlockMoveLocal(s, v, depth);
    TakeDrop(s, n, k, u, v);
  }

  lemma BlockTakesTwo(s: string, depth: nat)
    requires depth > 0 && BlockLen(s, depth) < |s|
    ensures BlockLen(s, depth) > 1
  {
  }

  lemma QuotedStable(s: string, u: string)
    requires s != "" && Opening(s) in {SingleQuoted, DoubleQuoted}
    requires TailOk(s[StepLen(s)..], u)
    ensures StepLen(s[..StepLen(s)] + u) == StepLen(s)
  {
    hide SingleLen, DoubleLen, DelimLen, DollarLen, LineLen, BlockLen, TailOk;
    var n := StepLen(s);
    var v := s[..n] + u;
    assert s[1..][n - 1..] == s[n..];
    assert v[1..] == s[1..][..n - 1] + u;
    if Opening(s) == SingleQuoted {
      SingleStable(s[1..], u);
    } else {
      DoubleStable(s[1..], u);
    }
  }

  lemma DollarQuotedStable(s: string, u: string)
    requires s != "" && Opening(s) == DollarQuoted
    requires TailOk(s[StepLen(s)..], u)
    ensures Opening(s[..StepLen(s)] + u) == DollarQuoted
    ensures StepLen(s[..StepLen(s)] + u) == StepLen(s)
  {
    hide TagLen, DollarLen;
    var n, d := StepLen(s), DelimLen(s);
    var v := s[..n] + u;
    assert DelimLen(v) == d by {
      assert v[1..] == s[1..][..n - 1] + u;
      TagLenPrefix(s[1..], true, n - 1, u);
    }
    assert v[d..] == s[d..][..n - d] + u;
    assert v[..d] == s[..d];
    DollarStable(s[d..], s[..d], u);
  }

  lemma CommentStable(s: string, u: string)
    requires s != "" && Opening(s) in {LineComment, BlockComment}
    requires TailOk(s[StepLen(s)..], u)
    ensures Opening(s[..StepLen(s)] + u) == Opening(s)
    ensures StepLen(s[..StepLen(s)] + u) == StepLen(s)
  {
    var n := StepLen(s);
    var v := s[..n] + u;
    if Opening(s) == LineComment {
      assert s[0] == '-' && s[1..][0] == '-';
      LineStable(s, u);
    } else {
      assert v[2..] == s[2..][..n - 2] + u;
      BlockStable(s[2..], 1, u);
    }
  }

  /** A literal or comment ends where it did however the text after it is cut
      or rewritten, as long as the change is invisible at its edge. */
  lemma StepStable(s: string, u: string)
    requires s != "" && Opening(s) != Code
    requires TailOk(s[StepLen(s)..], u)
    ensures Opening(s[..StepLen(s)] + u) == Opening(s)
    ensures StepLen(s[..StepLen(s)] + u) == StepLen(s)
  {
    match Opening(s) {
      case SingleQuoted | DoubleQuoted => QuotedStable(s, u);
      case DollarQuoted => DollarQuotedStable(s, u);
      case LineComment | BlockComment => CommentStable(s, u);
    }
  }

  /** Cutting text short never makes something open that did not. */
  lemma CutStaysCode(s: string, k: nat)
    requires 0 < k <= |s|
    requires Opening(s) == Code
    ensures Opening(s[..k]) == Code
  {
    if s[0] == '$' {
      var cut := s[..k][1..];
      assert cut[..k - 1] + s[k..] == s[1..];
      if TagLen(cut, true) > 0 {
        TagLenPrefix(cut, true, k - 1, s[k..]);
      }
    }
  }

  // -------------------------------------------------------- character boundaries

  predicate IsContinuation(b: char) { 0x80 <= b as int < 0xC0 }

  /** Bytes in the character that `first` opens (src/sql.rs:329-336). */
  function Utf8Len(first: char): nat {
    if first as int < 0x80 then 1
    else if 0xC0 <= first as int <= 0xDF then 2
    else if 0xE0 <= first as int <= 0xEF then 3
    else 4
  }

  /** Lead and continuation bytes alternate as UTF-8 demands. Every `str`
      satisfies this; overlong forms and surrogates are not excluded. */
  ghost predicate ValidUtf8(s: string) {
    s == "" || (
      && !IsContinuation(s[0])
      && Utf8Len(s[0]) <= |s|
      && (forall k :: 0 < k < Utf8Len(s[0]) ==> IsContinuation(s[k]))
      && ValidUtf8(s[Utf8Len(s[0])..]))
  }

  /** Rust's `is_char_boundary`. */
  predicate IsCharBoundary(s: string, k: nat)
    requires k <= |s|
  {
    k == |s| || !IsContinuation(s[k])
  }

  /** A continuation byte follows a byte that is not ASCII, and the character
      at a boundary is whole. */
  lemma {:induction false} Utf8Local(s: string, k: nat)
    requires ValidUtf8(s) && k < |s|
    ensures IsContinuation(s[k]) ==> k > 0 && s[k - 1] as int >= 0x80
    ensures !IsContinuation(s[k]) ==> k + Utf8Len(s[k]) <= |s|
    ensures !IsContinuation(s[k]) ==> forall j :: k < j < k + Utf8Len(s[k]) ==> IsContinuation(s[j])
    ensures !IsContinuation(s[k]) ==> IsCharBoundary(s, k + Utf8Len(s[k]))
    decreases |s|
  {
    var n := Utf8Len(s[0]);
    if k >= n {
      Utf8Local(s[n..], k - n);
      if !IsContinuation(s[k]) {
        forall j | k < j < k + Utf8Len(s[k]) ensures IsContinuation(s[j]) {
          assert s[j] == s[n..][j - n];
        }
      }
    }
  }

  // ------------------------------------------------------------------- the loop

  ghost function PiecesOf(sql: string, spans: seq<Span>): seq<Piece>
    requires Within(sql, spans)
  {
    seq(|spans|, i requires 0 <= i < |spans| =>
      Piece(spans[i].segment, sql[spans[i].start..spans[i].end]))
  }

  /** The spans are non-empty and cover `0..upTo` in order, without a gap. */
  ghost predicate Tiles(spans: seq<Span>, upTo: nat) {
    && (forall i :: 0 <= i < |spans| ==> spans[i].start < spans[i].end)
    && (forall i, j :: 0 <= i < j < |spans| && j == i + 1 ==> spans[j].start == spans[i].end)
    && (if spans == [] then upTo == 0 else spans[0].start == 0 && spans[|spans| - 1].end == upTo)
  }

  lemma {:induction false} TilesBounded(spans: seq<Span>, upTo: nat)
    requires Tiles(spans, upTo)
    ensures forall i :: 0 <= i < |spans| ==> spans[i].end <= upTo
  {
    if |spans| > 1 {
      var m := |spans| - 1;
      TilesBounded(spans[..m], spans[m].start);
      forall i | 0 <= i < |spans| ensures spans[i].end <= upTo {
        if i < m {
          assert spans[i] == spans[..m][i];
        }
      }
    }
  }

  method DollarDelimiterLen(bytes: string, i: nat) returns (len: Option<nat>)
    requires i < |bytes| && bytes[i] == '$'
    ensures len == if DelimLen(bytes[i..]) == 0 then None else Some(DelimLen(bytes[i..]))
  {
    var j := i + 1;
    assert bytes[i..][1..] == bytes[j..];
    while j < |bytes| && bytes[j] != '$'
      invariant i < j <= |bytes|
      invariant var rest := TagLen(bytes[j..], j == i + 1);
                DelimLen(bytes[i..]) == if rest == 0 then 0 else rest + (j - i)
    {
      var first := j == i + 1;
      if first && !IsIdentStart(bytes[j]) {
        return None;
      }
      if !first && !IsTagChar(bytes[j]) {
        return None;
      }
      assert bytes[j..][1..] == bytes[j + 1..];
      j := j + 1;
    }
    if j < |bytes| && bytes[j] == '$' {
      return Some(j - i + 1);
    } else {
      return None;
    }
  }

  // The inner loops of `scan`, one method each; `i` is the offset just after
  // the opening delimiter.

  method SingleQuotedEnd(bytes: string, from: nat) returns (i: nat)
    requires from <= |bytes|
    ensures i == from + SingleLen(bytes[from..])
  {
    i := from;
    while i < |bytes|
      invariant from <= i <= |bytes|
      invariant i + SingleLen(bytes[i..]) == from + SingleLen(bytes[from..])
    {
      assert bytes[i..][1..] == bytes[i + 1..];
      if bytes[i] == '\\' && i + 1 < |bytes| {
        assert bytes[i..][2..] == bytes[i + 2..];
        i := i + 2;
      } else if bytes[i] == '\'' {
        if i + 1 < |bytes| && bytes[i + 1] == '\'' {
          assert bytes[i..][2..] == bytes[i + 2..];
          i := i + 2;
        } else {
          return i + 1;
        }
      } else {
        i := i + 1;
      }
    }
  }

  method DoubleQuotedEnd(bytes: string, from: nat) returns (i: nat)
    requires from <= |bytes|
    ensures i == from + DoubleLen(bytes[from..])
  {
    i := from;
    while i < |bytes|
      invariant from <= i <= |bytes|
      invariant i + DoubleLen(bytes[i..]) == from + DoubleLen(bytes[from..])
    {
      assert bytes[i..][1..] == bytes[i + 1..];
      if bytes[i] == '"' {
        if i + 1 < |bytes| && bytes[i + 1] == '"' {
          assert bytes[i..][2..] == bytes[i + 2..];
          i := i + 2;
        } else {
          return i + 1;
        }
      } else {
        i := i + 1;
      }
    }
  }

  method DollarQuotedEnd(bytes: string, from: nat, delim: string) returns (i: nat)
    requires from <= |bytes|
    requires delim != "" && delim[0] == '$'
    ensures i == from + DollarLen(bytes[from..], delim)
  {
    i := from;
    while i < |bytes|
      invariant from <= i <= |bytes|
      invariant i + DollarLen(bytes[i..], delim) == from + DollarLen(bytes[from..], delim)
    {
      assert bytes[i..][1..] == bytes[i + 1..];
      if bytes[i] == '$' && delim <= bytes[i..] {
        return i + |delim|;
      }
      i := i + 1;
    }
  }

  method LineCommentEnd(bytes: string, from: nat) returns (i: nat)
    requires from <= |bytes|
    ensures i == from + LineLen(bytes[from..])
  {
    i := from;
    while i < |bytes| && bytes[i] != '\n'
      invariant from <= i <= |bytes|
      invariant i + LineLen(bytes[i..]) == from + LineLen(bytes[from..])
    {
      assert bytes[i..][1..] == bytes[i + 1..];
      i := i + 1;
    }
  }

  lemma BlockStep(bytes: string, i: nat, depth: nat)
    requires i < |bytes| && depth > 0
    ensures BlockLen(bytes[i..], depth) ==
      if i + 1 < |bytes| && bytes[i] == '/' && bytes[i + 1] == '*' then 2 + BlockLen(bytes[i + 2..], depth + 1)
      else if i + 1 < |bytes| && bytes[i] == '*' && bytes[i + 1] == '/' then 2 + BlockLen(bytes[i + 2..], depth - 1)
      else 1 + BlockLen(bytes[i + 1..], depth)
  {
    var s := bytes[i..];
    assert s[1..] == bytes[i + 1..];
    assert |s| > 1 ==> s[2..] == bytes[i + 2..];
  }

  method BlockCommentEnd(bytes: string, from: nat) returns (i: nat)
    requires from <= |bytes|
    ensures i == from + BlockLen(bytes[from..], 1)
  {
    hide BlockLen;
    i := from;
    var depth := 1;
    while i < |bytes| && depth > 0
      invariant from <= i <= |bytes| && 0 <= depth
      invariant i + BlockLen(bytes[i..], depth) == from + BlockLen(bytes[from..], 1)
    {
      BlockStep(bytes, i, depth);
      if bytes[i] == '/' && i + 1 < |bytes| && bytes[i + 1] == '*' {
        depth := depth + 1;
        i := i + 2;
      } else if bytes[i] == '*' && i + 1 < |bytes| && bytes[i + 1] == '/' {
        depth := depth - 1;
        i := i + 2;
      } else {
        i := i + 1;
      }
    }
    BlockDone(bytes[i..], depth);
  }

  lemma BlockDone(s: string, depth: nat)
    requires s == "" || depth == 0
    ensures BlockLen(s, depth) == 0
  {
  }

  /** What is left to emit when the loop stands at `i` with code pending. */
  ghost function Pending(code: string, rest: string): seq<Piece> {
    if code == "" then Lex(rest) else Prepend(Code, code, Lex(rest))
  }

  lemma PendingGrows(code: string, rest: string)
    requires rest != "" && Opening(rest) == Code
    ensures Pending(code, rest) == Pending(code + rest[..1], rest[1..])
  {
    if code == "" {
      assert code + rest[..1] == rest[..1];
    } else {
      PrependTwice(code, rest[..1], Lex(rest[1..]));
    }
  }

  lemma PrependTwice(a: string, b: string, rest: seq<Piece>)
    ensures Prepend(Code, a, Prepend(Code, b, rest)) == Prepend(Code, a + b, rest)
  {
    if rest != [] && rest[0].segment == Code {
      assert a + (b + rest[0].text) == (a + b) + rest[0].text;
    }
  }

  ghost predicate Within(sql: string, spans: seq<Span>) {
    forall i :: 0 <= i < |spans| ==> spans[i].start <= spans[i].end <= |sql|
  }

  /** `flush_code!`: emit the code between `codeStart` and `at`, if there is any. */
  method FlushCode(sql: string, spans: seq<Span>, codeStart: nat, at: nat) returns (r: seq<Span>)
    requires codeStart <= at <= |sql|
    requires Tiles(spans, codeStart) && Within(sql, spans)
    ensures Tiles(r, at) && Within(sql, r)
    ensures PiecesOf(sql, r) == PiecesOf(sql, spans) +
      if at > codeStart then [Piece(Code, sql[codeStart..at])] else []
  {
    r := spans;
    if at > codeStart {
      r := r + [Span(Code, codeStart, at)];
    }
  }

  /** The loop invariant of `scan`: what is emitted, what is pending and what is
      still unread make up the pieces of the whole. */
  ghost predicate Scanned(sql: string, spans: seq<Span>, codeStart: nat, i: nat) {
    && codeStart <= i <= |sql|
    && Tiles(spans, codeStart) && Within(sql, spans)
    && PiecesOf(sql, spans) + Pending(sql[codeStart..i], sql[i..]) == Lex(sql)
  }

  /** The source's `scan`. */
  method Scan(sql: string) returns (spans: seq<Span>)
    ensures Tiles(spans, |sql|) && Within(sql, spans)
    ensures PiecesOf(sql, spans) == Lex(sql)
  {
    hide *;
    var i := 0;
    var codeStart := 0;
    spans := [];
    ScanStart(sql);
    while i < |sql|
      invariant 0 <= codeStart <= i <= |sql|
      invariant Scanned(sql, spans, codeStart, i)
    {
      var segment, end := SpanAt(sql, i);
      if segment == Code {
        CodeGrows(sql, spans, codeStart, i);
        i := i + 1;
      } else {
        spans := EmitSpan(sql, spans, codeStart, Span(segment, i, end));
        i := end;
        codeStart := end;
      }
    }
    spans := LastFlush(sql, spans, codeStart);
  }

  lemma ScanStart(sql: string)
    ensures Scanned(sql, [], 0, 0)
  {
    assert sql[0..] == sql;
  }

  method LastFlush(sql: string, spans: seq<Span>, codeStart: nat) returns (r: seq<Span>)
    requires Scanned(sql, spans, codeStart, |sql|)
    ensures Tiles(r, |sql|) && Within(sql, r)
    ensures PiecesOf(sql, r) == Lex(sql)
  {
    assert sql[|sql|..] == "";
    r := FlushCode(sql, spans, codeStart, |sql|);
  }

  lemma CodeGrows(sql: string, spans: seq<Span>, codeStart: nat, i: nat)
    requires Scanned(sql, spans, codeStart, i)
    requires i < |sql| && Opening(sql[i..]) == Code
    ensures Scanned(sql, spans, codeStart, i + 1)
  {
    hide Pending, Lex, Tiles, Opening;
    PendingGrows(sql[codeStart..i], sql[i..]);
    assert sql[codeStart..i] + sql[i..][..1] == sql[codeStart..i + 1];
    assert sql[i..][1..] == sql[i + 1..];
  }

  method EmitSpan(sql: string, spans: seq<Span>, codeStart: nat, span: Span) returns (r: seq<Span>)
    requires Scanned(sql, spans, codeStart, span.start)
    requires span.start < span.end <= |sql|
    requires span.segment == Opening(sql[span.start..]) != Code
    requires span.end == span.start + StepLen(sql[span.start..])
    ensures Scanned(sql, r, span.end, span.end)
  {
    var flushed := FlushCode(sql, spans, codeStart, span.start);
    r := PushSpan(sql, flushed, span);
    FlushedPieces(sql, spans, codeStart, span, PiecesOf(sql, flushed), PiecesOf(sql, r));
    assert sql[span.end..span.end] == "";
  }

  method PushSpan(sql: string, spans: seq<Span>, span: Span) returns (r: seq<Span>)
    requires span.start < span.end <= |sql|
    requires Tiles(spans, span.start) && Within(sql, spans)
    ensures Tiles(r, span.end) && Within(sql, r)
    ensures PiecesOf(sql, r) == PiecesOf(sql, spans) + [Piece(span.segment, sql[span.start..span.end])]
  {
    r := spans + [span];
  }

  lemma FlushedPieces(sql: string, spans: seq<Span>, codeStart: nat, span: Span, flushed: seq<Piece>,
      emitted: seq<Piece>)
    requires codeStart <= span.start < span.end <= |sql|
    requires span.segment == Opening(sql[span.start..]) != Code
    requires span.end == span.start + StepLen(sql[span.start..])
    requires Within(sql, spans)
    requires flushed == PiecesOf(sql, spans) +
      if span.start > codeStart then [Piece(Code, sql[codeStart..span.start])] else []
    requires emitted == flushed + [Piece(span.segment, sql[span.start..span.end])]
    ensures emitted + Lex(sql[span.end..]) ==
      PiecesOf(sql, spans) + Pending(sql[codeStart..span.start], sql[span.start..])
  {
    var head, tail := sql[span.start..span.end], sql[span.end..];
    assert sql[span.start..] == head + tail;
    PendingFlush(PiecesOf(sql, spans), sql[codeStart..span.start], sql[span.start..], head, tail);
  }

  lemma PendingFlush(done: seq<Piece>, code: string, rest: string, head: string, tail: string)
    requires rest != "" && Opening(rest) != Code
    requires rest == head + tail && |head| == StepLen(rest)
    ensures done + Pending(code, rest) ==
      (done + if code != "" then [Piece(Code, code)] else []) + [Piece(Opening(rest), head)] + Lex(tail)
  {
    LexStep(rest, head, tail);
    var p, ps := Piece(Opening(rest), head), Lex(tail);
    if code == "" {
      assert done + ([p] + ps) == (done + []) + [p] + ps;
    } else {
      assert Pending(code, rest) == [Piece(Code, code)] + ([p] + ps);
      assert done + ([Piece(Code, code)] + ([p] + ps)) == (done + [Piece(Code, code)]) + [p] + ps;
    }
  }

  /** The `match bytes[i]` of the loop: what opens at `i`, and where it ends. */
  method SpanAt(bytes: string, i: nat) returns (segment: Segment, end: nat)
    requires i < |bytes|
    ensures segment == Opening(bytes[i..])
    ensures end == i + StepLen(bytes[i..])
  {
    assert bytes[i..][1..] == bytes[i + 1..];
    if bytes[i] == '\'' {
      end := SingleQuotedEnd(bytes, i + 1);
      return SingleQuoted, end;
    } else if bytes[i] == '"' {
      end := DoubleQuotedEnd(bytes, i + 1);
      return DoubleQuoted, end;
    } else if bytes[i] == '$' {
      var len := DollarDelimiterLen(bytes, i);
      match len {
        case None => return Code, i + 1;
        case Some(n) =>
          assert bytes[i..][..n] == bytes[i..i + n];
          assert bytes[i..][n..] == bytes[i + n..];
          end := DollarQuotedEnd(bytes, i + n, bytes[i..i + n]);
          return DollarQuoted, end;
      }
    } else if bytes[i] == '-' && i + 1 < |bytes| && bytes[i + 1] == '-' {
      end := LineCommentEnd(bytes, i);
      return LineComment, end;
    } else if bytes[i] == '/' && i + 1 < |bytes| && bytes[i + 1] == '*' {
      assert bytes[i..][2..] == bytes[i + 2..];
      end := BlockCommentEnd(bytes, i + 2);
      return BlockComment, end;
    }
    return Code, i + 1;
  }

  /** Every span begins and ends where a character does. */
  lemma {:induction false} SpanBoundaries(sql: string, spans: seq<Span>, i: nat)
    requires ValidUtf8(sql)
    requires Tiles(spans, |sql|)
    requires Within(sql, spans)
    requires PiecesOf(sql, spans) == Lex(sql)
    requires i < |spans|
    ensures IsCharBoundary(sql, spans[i].start) && IsCharBoundary(sql, spans[i].end)
  {
    LexEdges(sql);
    var ps := Lex(sql);
    forall k | 0 <= k < |spans| ensures ps[k] == Piece(spans[k].segment, sql[spans[k].start..spans[k].end]) {
    }
    BoundaryBefore(sql, spans, i);
    if i + 1 < |spans| {
      BoundaryBefore(sql, spans, i + 1);
    }
  }

  lemma BoundaryBefore(sql: string, spans: seq<Span>, i: nat)
    requires ValidUtf8(sql)
    requires Tiles(spans, |sql|)
    requires Within(sql, spans)
    requires PiecesOf(sql, spans) == Lex(sql)
    requires AsciiEdges(Lex(sql))
    requires i < |spans|
    ensures IsCharBoundary(sql, spans[i].start)
  {
    hide Lex, ValidUtf8, Utf8Len;
    var ps := Lex(sql);
    assert ps[i] == Piece(spans[i].segment, sql[spans[i].start..spans[i].end]);
    Utf8Local(sql, spans[i].start);
    if i > 0 {
      assert ps[i - 1] == Piece(spans[i - 1].segment, sql[spans[i - 1].start..spans[i - 1].end]);
    }
  }

  predicate AsciiSeam(a: string, b: string) {
    a != "" && b != "" && (a[|a| - 1] as int < 0x80 || b[0] as int < 0x80)
  }

  /** Two neighbouring pieces always have an ASCII byte on one side of the seam. */
  ghost predicate AsciiEdges(ps: seq<Piece>) {
    && (forall i :: 0 <= i < |ps| ==> ps[i].text != "")
    && (forall i, j :: 0 <= i < j < |ps| && j == i + 1 ==> AsciiSeam(ps[i].text, ps[j].text))
  }

  /** A literal or comment closes on an ASCII byte, or in front of a newline, or
      at the end of the text. */
  lemma StepEdge(s: string)
    requires s != "" && Opening(s) != Code && StepLen(s) < |s|
    ensures s[StepLen(s) - 1] as int < 0x80 || s[StepLen(s)] == '\n'
  {
    match Opening(s) {
      case SingleQuoted => SingleEdge(s[1..]);
      case DoubleQuoted => DoubleEdge(s[1..]);
      case DollarQuoted =>
        var d := DelimLen(s);
        assert s[..d][d - 1] == '$';
        DollarEdge(s[d..], s[..d]);
      case LineComment =>
      case BlockComment => BlockEdge(s[2..], 1);
    }
  }

  lemma {:induction false} SingleEdge(s: string)
    requires SingleLen(s) < |s|
    ensures SingleLen(s) > 0 && s[SingleLen(s) - 1] == '\''
    decreases |s|
  {
    if s[0] == '\\' || (s[0] == '\'' && |s| > 1 && s[1] == '\'') {
      SingleEdge(s[2..]);
    } else if s[0] != '\'' {
      SingleEdge(s[1..]);
    }
  }

  lemma {:induction false} DoubleEdge(s: string)
    requires DoubleLen(s) < |s|
    ensures DoubleLen(s) > 0 && s[DoubleLen(s) - 1] == '"'
    decreases |s|
  {
    if s[0] == '"' && |s| > 1 && s[1] == '"' {
      DoubleEdge(s[2..]);
    } else if s[0] != '"' {
      DoubleEdge(s[1..]);
    }
  }

  lemma {:induction false} DollarEdge(s: string, delim: string)
    requires delim != "" && delim[|delim| - 1] == '$'
    requires DollarLen(s, delim) < |s|
    ensures s[DollarLen(s, delim) - 1] == '$'
  {
    if !(delim <= s) {
      DollarEdge(s[1..], delim);
    }
  }

  lemma {:induction false} BlockEdge(s: string, depth: nat)
    requires depth > 0 && BlockLen(s, depth) < |s|
    ensures BlockLen(s, depth) > 0 && s[BlockLen(s, depth) - 1] == '/'
    decreases |s|
  {
    if "/*" <= s {
      BlockEdge(s[2..], depth + 1);
    } else if "*/" <= s {
      if depth > 1 {
        BlockEdge(s[2..], depth - 1);
      }
    } else {
      BlockEdge(s[1..], depth);
    }
  }

  lemma {:induction false} LexEdges(s: string)
    ensures AsciiEdges(Lex(s))
    decreases |s|
  {
    if s != "" {
      var n := StepLen(s);
      LexEdges(s[n..]);
      LexHead(s[n..]);
      if Opening(s) != Code && n < |s| {
        StepEdge(s);
        assert s[..n][n - 1] == s[n - 1] && s[n..][0] == s[n];
      }
      EdgesPrepend(Opening(s), s[..n], Lex(s[n..]));
    }
  }

  lemma EdgesPrepend(segment: Segment, text: string, rest: seq<Piece>)
    requires text != "" && AsciiEdges(rest)
    requires rest != [] && !(segment == Code && rest[0].segment == Code) ==> AsciiSeam(text, rest[0].text)
    ensures AsciiEdges(Prepend(segment, text, rest))
  {
    if rest != [] && segment == Code && rest[0].segment == Code {
      EdgesCons(Piece(Code, text + rest[0].text), rest[1..]);
    } else {
      EdgesCons(Piece(segment, text), rest);
    }
  }

  lemma EdgesCons(p: Piece, rest: seq<Piece>)
    requires p.text != "" && AsciiEdges(rest)
    requires rest != [] ==> AsciiSeam(p.text, rest[0].text)
    ensures AsciiEdges([p] + rest)
  {
  }

  /** The first piece starts with the first byte; unless it is code, that byte is ASCII. */
  lemma {:induction false} LexHead(s: string)
    ensures s != "" ==> Lex(s) != [] && Lex(s)[0].segment == Opening(s)
    ensures s != "" ==> Lex(s)[0].text != "" && Lex(s)[0].text[0] == s[0]
    ensures s != "" && Opening(s) != Code ==> s[0] as int < 0x80
  {
  }

  // ---------------------------------------------- what the spans say about the text

  /** `p` is a step of the lexer at the head of `s`, or a run of code steps, and
      `rest` is what the text after it lexes to. */
  ghost predicate FirstPiece(s: string, p: Piece, rest: seq<Piece>) {
    && s != "" && p.text != "" && p.text <= s
    && Lex(s[|p.text|..]) == rest
    && p.segment == Opening(s)
    && (p.segment != Code ==> |p.text| == StepLen(s))
    && (p.segment == Code ==> CodeRun(s, 0, |p.text|))
  }

  lemma {:induction false} LexFirst(s: string)
    requires s != ""
    ensures Lex(s) != [] && FirstPiece(s, Lex(s)[0], Lex(s)[1..])
    decreases |s|
  {
    var n := StepLen(s);
    var rest := Lex(s[n..]);
    if Opening(s) == Code && |s| > 1 {
      LexFirst(s[1..]);
      if rest[0].segment == Code {
        JoinFirst(s, rest[0], rest[1..]);
        assert Lex(s)[1..] == rest[1..];
      } else {
        StepFirst(s);
      }
    } else {
      StepFirst(s);
    }
  }

  lemma StepFirst(s: string)
    requires s != ""
    ensures FirstPiece(s, Piece(Opening(s), s[..StepLen(s)]), Lex(s[StepLen(s)..]))
  {
    assert s[0..] == s;
  }

  lemma JoinFirst(s: string, p: Piece, rest: seq<Piece>)
    requires |s| > 1 && Opening(s) == Code && p.segment == Code
    requires FirstPiece(s[1..], p, rest)
    ensures FirstPiece(s, Piece(Code, s[..1] + p.text), rest)
  {
    var n := |p.text| + 1;
    assert s[..n] == s[..1] + s[1..][..n - 1];
    assert s[1..][n - 1..] == s[n..];
    forall j | 0 <= j < n ensures CodeAt(s, j) {
      if j == 0 {
        assert s[0..] == s;
      } else {
        assert CodeAt(s[1..], j - 1) && s[1..][j - 1..] == s[j..];
      }
    }
  }

  /** The spans from the `k`th on are the pieces of the text from there on. */
  lemma {:induction false} SpansRestart(sql: string, spans: seq<Span>, k: nat)
    requires Tiles(spans, |sql|) && Within(sql, spans)
    requires PiecesOf(sql, spans) == Lex(sql)
    requires k < |spans|
    ensures Lex(sql[spans[k].start..]) == Lex(sql)[k..]
    decreases k
  {
    if k == 0 {
      assert sql[0..] == sql;
    } else {
      var prev := spans[k - 1];
      SpansRestart(sql, spans, k - 1);
      assert Lex(sql)[k - 1] == Piece(prev.segment, sql[prev.start..prev.end]);
      NextPieces(sql, prev.start, prev.end);
      assert spans[k].start == prev.end;
      assert Lex(sql)[k - 1..][1..] == Lex(sql)[k..];
    }
  }

  lemma NextPieces(sql: string, start: nat, end: nat)
    requires start < end <= |sql|
    requires Lex(sql[start..]) != [] && Lex(sql[start..])[0].text == sql[start..end]
    ensures Lex(sql[end..]) == Lex(sql[start..])[1..]
  {
    LexFirst(sql[start..]);
    assert sql[start..][end - start..] == sql[end..];
  }

  /** Each span is a step of the lexer, or a run of code steps, where it stands. */
  lemma SpanIsStep(sql: string, spans: seq<Span>, k: nat)
    requires Tiles(spans, |sql|) && Within(sql, spans)
    requires PiecesOf(sql, spans) == Lex(sql)
    requires k < |spans|
    ensures spans[k].segment == Opening(sql[spans[k].start..])
    ensures spans[k].segment != Code ==> spans[k].end == spans[k].start + StepLen(sql[spans[k].start..])
    ensures spans[k].segment == Code ==> CodeRun(sql, spans[k].start, spans[k].end)
  {
    SpansRestart(sql, spans, k);
    var span := spans[k];
    var s := sql[span.start..];
    assert Lex(sql)[k] == Piece(span.segment, sql[span.start..span.end]);
    assert Lex(sql)[k..][0] == Lex(sql)[k];
    LexFirst(s);
    if span.segment == Code {
      RunWithin(sql, span.start, span.end);
    }
  }

  lemma RunWithin(sql: string, start: nat, end: nat)
    requires start <= end <= |sql| && CodeRun(sql[start..], 0, end - start)
    ensures CodeRun(sql, start, end)
  {
    var s := sql[start..];
    forall i | start <= i < end ensures CodeAt(sql, i) {
      assert CodeAt(s, i - start) && s[i - start..] == sql[i..];
    }
  }
}
