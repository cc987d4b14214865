/**
  The keyword checks the proxy decides by: `leading_words` and `modifies_data`
  (src/sql.rs:388-482), and `transaction_control` (src/exec.rs:166-189).
*/
module SqlWords {
  import opened Wrappers
  import opened SqlLexer
  import opened SqlTokens

  const WRITE_KEYWORDS: set<string> := {"INSERT", "UPDATE", "DELETE", "MERGE"}

  // -------------------------------------------------------------- words in one run

  function CodeWords(t: string): seq<string>
    decreases |t|
  {
    if t == "" then []
    else if IsIdentStart(t[0]) then [t[..WordLen(t)]] + CodeWords(t[WordLen(t)..])
    else CodeWords(t[1..])
  }

  /** `t[i..j]` is a word: it opens at the first byte of its identifier run that can
      open one, and ends where the run does. */
  ghost predicate WordAt(t: string, i: nat, j: nat) {
    && i < j <= |t| && IsIdentStart(t[i])
    && (forall k :: i <= k < j ==> IsIdentChar(t[k]))
    && (j < |t| ==> !IsIdentChar(t[j]))
    && NoWordRunsInto(t, i)
  }

  /** The identifier bytes just before `i`, if any, could not have opened a word. */
  ghost predicate NoWordRunsInto(t: string, i: nat)
    requires i <= |t|
  {
    exists b: nat :: b <= i && RunFrom(t, b, i)
  }

  ghost predicate RunFrom(t: string, b: nat, i: nat)
    requires b <= i <= |t|
  {
    && (b > 0 ==> !IsIdentChar(t[b - 1]))
    && forall k :: b <= k < i ==> IsIdentChar(t[k]) && !IsIdentStart(t[k])
  }

  ghost predicate ScanPosition(t: string, p: nat)
    requires p <= |t|
  {
    p == |t| || !IsIdentChar(t[p]) || NoWordRunsInto(t, p)
  }

  ghost predicate HasWordFrom(t: string, p: nat, w: string) {
    exists i: nat, j: nat :: p <= i && WordAt(t, i, j) && t[i..j] == w
  }

  lemma NextPosition(t: string, p: nat)
    requires p < |t| && ScanPosition(t, p) && !IsIdentStart(t[p])
    ensures ScanPosition(t, p + 1)
  {
    if IsIdentChar(t[p]) {
      var b: nat :| b <= p && RunFrom(t, b, p);
      assert RunFrom(t, b, p + 1);
    } else {
      assert RunFrom(t, p + 1, p + 1);
    }
  }

  lemma WordsDoNotOverlap(t: string, p: nat, i: nat, j: nat)
    requires p < |t| && IsIdentStart(t[p]) && p < i && WordAt(t, i, j)
    ensures p + WordLen(t[p..]) <= i
  {
  }

  lemma WordHere(t: string, p: nat)
    requires p < |t| && ScanPosition(t, p) && IsIdentStart(t[p])
    ensures WordAt(t, p, p + WordLen(t[p..]))
    ensures ScanPosition(t, p + WordLen(t[p..]))
  {
    var n := WordLen(t[p..]);
    forall k | p <= k < p + n ensures IsIdentChar(t[k]) {
      assert t[k] == t[p..][k - p];
    }
    if p + n < |t| {
      assert t[p + n] == t[p..][n];
    }
  }

  lemma {:induction false} CodeWordsFrom(t: string, p: nat, w: string)
    requires p <= |t| && ScanPosition(t, p)
    ensures w in CodeWords(t[p..]) <==> HasWordFrom(t, p, w)
    decreases |t| - p
  {
    hide ScanPosition, NoWordRunsInto, WordLen;
    if p == |t| {
    } else if IsIdentStart(t[p]) {
      var n := WordLen(t[p..]);
      WordHere(t, p);
      CodeWordsFrom(t, p + n, w);
      assert t[p..][..n] == t[p..p + n] && t[p..][n..] == t[p + n..];
      forall i: nat, j: nat | p <= i && WordAt(t, i, j) ensures p + n <= i || (i == p && j == p + n) {
        if p < i {
          WordsDoNotOverlap(t, p, i, j);
        }
      }
    } else {
      NextPosition(t, p);
      CodeWordsFrom(t, p + 1, w);
      assert t[p..][1..] == t[p + 1..];
    }
  }

  // --------------------------------------------------------------------- write check

  ghost predicate HasWriteWord(p: Piece) {
    p.segment == Code && HasWrite(CodeWords(p.text))
  }

  ghost predicate ModifiesData(sql: string) {
    exists p :: p in Lex(sql) && HasWriteWord(p)
  }

  /** The check looks at whole words in code: it fires exactly when some identifier run in a
      code span holds one of four words, of any case, from its first letter to its end. */
  lemma ModifiesDataExact(sql: string)
    ensures ModifiesData(sql) <==>
      exists p: Piece, i: nat, j: nat ::
        p in Lex(sql) && p.segment == Code && WordAt(p.text, i, j)
        && Upper(p.text[i..j]) in {"INSERT", "UPDATE", "DELETE", "MERGE"}
  {
    WriteStands(sql);
    assert WRITE_KEYWORDS == {"INSERT", "UPDATE", "DELETE", "MERGE"};
    hide ModifiesData, WordAt, Lex, Upper;
  }

  lemma WriteStands(sql: string)
    ensures ModifiesData(sql) <==>
      exists p: Piece, i: nat, j: nat ::
        p in Lex(sql) && p.segment == Code && WordAt(p.text, i, j) && Upper(p.text[i..j]) in WRITE_KEYWORDS
  {
    hide Lex, CodeWords, NoWordRunsInto, HasWrite, Upper;
    forall p: Piece | p in Lex(sql) && p.segment == Code
      ensures HasWriteWord(p) <==>
        exists i: nat, j: nat :: WordAt(p.text, i, j) && Upper(p.text[i..j]) in WRITE_KEYWORDS
    {
      WriteStandsIn(p.text);
    }
  }

  lemma WriteStandsIn(t: string)
    ensures HasWrite(CodeWords(t)) <==>
      exists i: nat, j: nat :: WordAt(t, i, j) && Upper(t[i..j]) in WRITE_KEYWORDS
  {
    hide CodeWords, Upper;
    assert t[0..] == t;
    if |t| > 0 { assert RunFrom(t, 0, 0); }
    forall w ensures w in CodeWords(t) <==> HasWordFrom(t, 0, w) {
      CodeWordsFrom(t, 0, w);
    }
    hide NoWordRunsInto;
    if HasWrite(CodeWords(t)) {
      var w :| w in CodeWords(t) && Upper(w) in WRITE_KEYWORDS;
      assert HasWordFrom(t, 0, w);
      var i: nat, j: nat :| WordAt(t, i, j) && t[i..j] == w;
    }
    if i: nat, j: nat :| WordAt(t, i, j) && Upper(t[i..j]) in WRITE_KEYWORDS {
      assert HasWordFrom(t, 0, t[i..j]);
    }
  }

  ghost predicate HasWrite(words: seq<string>) { exists w :: w in words && Upper(w) in WRITE_KEYWORDS }

  lemma WriteWordTaken(t: string, i: nat, j: nat)
    requires i < |t| && IsIdentStart(t[i]) && j == i + WordLen(t[i..])
    ensures i < j && (HasWrite(CodeWords(t[i..])) <==> Upper(t[i..j]) in WRITE_KEYWORDS || HasWrite(CodeWords(t[j..])))
  {
    assert t[i..][..j - i] == t[i..j] && t[i..][j - i..] == t[j..];
    assert t[i..j] in CodeWords(t[i..]);
  }

  method SpanModifiesData(t: string) returns (found: bool)
    ensures found <==> HasWrite(CodeWords(t))
  {
    var i := 0;
    assert t[0..] == t;
    while i < |t|
      invariant 0 <= i <= |t|
      invariant HasWrite(CodeWords(t[i..])) <==> HasWrite(CodeWords(t))
    {
      if IsIdentStart(t[i]) {
        var start := i;
        i := WordEnd(t, i);
        WriteWordTaken(t, start, i);
        if Upper(t[start..i]) in WRITE_KEYWORDS {
          return true;
        }
      } else {
        assert t[i..][1..] == t[i + 1..];
        i := i + 1;
      }
    }
    return false;
  }

  /** The source's `modifies_data`. */
  method ModifiesDataMethod(sql: string) returns (found: bool)
    ensures found <==> ModifiesData(sql)
  {
    var spans := Scan(sql);
    ghost var ps := Lex(sql);
    for k := 0 to |spans|
      invariant forall i :: 0 <= i < k ==> !HasWriteWord(ps[i])
    {
      var text := sql[spans[k].start..spans[k].end];
      assert ps[k] == Piece(spans[k].segment, text);
      if spans[k].segment == Code {
        var hit := SpanModifiesData(text);
        if hit {
          assert ps[k] in Lex(sql);
          return true;
        }
      }
    }
    return false;
  }

  // -------------------------------------------------------------------- leading words

  /** The words of a code run up to `max`, and whether punctuation ended them. */
  function CodeLeading(t: string, max: nat): (seq<string>, bool)
    decreases |t|
  {
    if t == "" || max == 0 then ([], false)
    else if IsIdentStart(t[0]) then
      var (words, stop) := CodeLeading(t[WordLen(t)..], max - 1);
      ([Upper(t[..WordLen(t)])] + words, stop)
    else if IsAsciiSpace(t[0]) then CodeLeading(t[1..], max)
    else ([], true)
  }

  function Leading(ps: seq<Piece>, max: nat): seq<string>
    decreases |ps|
  {
    if ps == [] then []
    else if ps[0].segment in {LineComment, BlockComment} then Leading(ps[1..], max)
    else if ps[0].segment != Code then []
    else
      var (words, stop) := CodeLeading(ps[0].text, max);
      if stop || |words| >= max then words else words + Leading(ps[1..], max - |words|)
  }

  function LeadingWords(sql: string, max: nat): seq<string> { Leading(Lex(sql), max) }

  ghost predicate LedTo(t: string, max: nat, words: seq<string>, i: nat) {
    && i <= |t| && |words| <= max
    && var (rest, stop) := CodeLeading(t[i..], max - |words|);
       words + rest == CodeLeading(t, max).0 && stop == CodeLeading(t, max).1
  }

  lemma LeadWord(t: string, max: nat, words: seq<string>, i: nat, j: nat)
    requires LedTo(t, max, words, i) && |words| < max
    requires i < |t| && IsIdentStart(t[i]) && j == i + WordLen(t[i..])
    ensures i < j && LedTo(t, max, words + [Upper(t[i..j])], j)
  {
    assert t[i..][..j - i] == t[i..j] && t[i..][j - i..] == t[j..];
    var rest := CodeLeading(t[j..], max - |words| - 1).0;
    assert words + ([Upper(t[i..j])] + rest) == words + [Upper(t[i..j])] + rest;
  }

  lemma LeadSpace(t: string, max: nat, words: seq<string>, i: nat)
    requires LedTo(t, max, words, i) && |words| < max
    requires i < |t| && !IsIdentStart(t[i])
    ensures IsAsciiSpace(t[i]) ==> LedTo(t, max, words, i + 1)
    ensures !IsAsciiSpace(t[i]) ==> (words, true) == CodeLeading(t, max)
  {
    assert t[i..][1..] == t[i + 1..];
    assert words + [] == words;
  }

  lemma LeadEnd(t: string, max: nat, words: seq<string>, i: nat)
    requires LedTo(t, max, words, i) && (i == |t| || |words| == max)
    ensures (words, false) == CodeLeading(t, max)
  {
    assert words + [] == words;
  }

  /** The inner loop of `leading_words`, over one code span. */
  method CodeLeadingMethod(t: string, max: nat) returns (words: seq<string>, stop: bool)
    ensures (words, stop) == CodeLeading(t, max)
  {
    words := [];
    var i := 0;
    assert t[0..] == t;
    while i < |t| && |words| < max
      invariant LedTo(t, max, words, i)
    {
      if IsIdentStart(t[i]) {
        var start := i;
        i := WordEnd(t, i);
        LeadWord(t, max, words, start, i);
        words := words + [Upper(t[start..i])];
      } else {
        LeadSpace(t, max, words, i);
        if !IsAsciiSpace(t[i]) {
          return words, true;
        }
        i := i + 1;
      }
    }
    LeadEnd(t, max, words, i);
    return words, false;
  }

  /** How one more span extends the leading words. */
  lemma LeadingStep(ps: seq<Piece>, k: nat, max: nat)
    requires k < |ps|
    ensures Leading(ps[k..], max) ==
      if ps[k].segment in {LineComment, BlockComment} then Leading(ps[k + 1..], max)
      else if ps[k].segment != Code then []
      else
        var (words, stop) := CodeLeading(ps[k].text, max);
        if stop || |words| >= max then words else words + Leading(ps[k + 1..], max - |words|)
  {
    assert ps[k..][0] == ps[k] && ps[k..][1..] == ps[k + 1..];
  }

  ghost predicate LedSpans(ps: seq<Piece>, max: nat, words: seq<string>, k: nat) {
    && k <= |ps| && |words| <= max
    && words + Leading(ps[k..], max - |words|) == Leading(ps, max)
  }

  lemma LedSkip(ps: seq<Piece>, max: nat, words: seq<string>, k: nat)
    requires LedSpans(ps, max, words, k) && k < |ps|
    ensures ps[k].segment in {LineComment, BlockComment} ==> LedSpans(ps, max, words, k + 1)
    ensures ps[k].segment !in {LineComment, BlockComment, Code} ==> words == Leading(ps, max)
  {
    LeadingStep(ps, k, max - |words|);
    assert words + [] == words;
  }

  lemma LedCode(ps: seq<Piece>, max: nat, words: seq<string>, k: nat, more: seq<string>, stop: bool)
    requires LedSpans(ps, max, words, k) && k < |ps| && ps[k].segment == Code
    requires (more, stop) == CodeLeading(ps[k].text, max - |words|)
    ensures if stop || |words + more| >= max then words + more == Leading(ps, max)
            else LedSpans(ps, max, words + more, k + 1)
  {
    LeadingStep(ps, k, max - |words|);
    if !stop && |words + more| < max {
      var rest := Leading(ps[k + 1..], max - |words| - |more|);
      assert words + (more + rest) == words + more + rest;
    }
  }

  lemma LedEnd(ps: seq<Piece>, max: nat, words: seq<string>)
    requires LedSpans(ps, max, words, |ps|)
    ensures words == Leading(ps, max)
  {
    assert words + [] == words;
  }

  /** The source's `leading_words`. */
  method LeadingWordsMethod(sql: string, max: nat) returns (words: seq<string>)
    ensures words == LeadingWords(sql, max)
  {
    var spans := Scan(sql);
    words := LeadingOver(sql, spans, Lex(sql), max);
  }

  method LeadingOver(sql: string, spans: seq<Span>, ghost ps: seq<Piece>, max: nat) returns (words: seq<string>)
    requires Within(sql, spans) && ps == PiecesOf(sql, spans)
    ensures words == Leading(ps, max)
  {
    words := [];
    assert ps[0..] == ps;
    for k := 0 to |spans|
      invariant LedSpans(ps, max, words, k)
    {
      var text := sql[spans[k].start..spans[k].end];
      assert ps[k] == Piece(spans[k].segment, text);
      if spans[k].segment != Code {
        LedSkip(ps, max, words, k);
        if spans[k].segment !in {LineComment, BlockComment} {
          return;
        }
      } else {
        var more, stop := CodeLeadingMethod(text, max - |words|);
        LedCode(ps, max, words, k, more, stop);
        words := words + more;
        if stop || |words| >= max {
          return;
        }
      }
    }
    LedEnd(ps, max, words);
  }

  // ------------------------------------------------------------------- schema changes

  const SCHEMA_WORDS: set<string> := {"CREATE", "ALTER", "DROP", "REINDEX", "REFRESH"}

  /** The statement could change what a shape would be. */
  predicate ChangesSchema(sql: string) { LeadingWords(sql, 1) != [] && LeadingWords(sql, 1)[0] in SCHEMA_WORDS }

  // -------------------------------------------------------------- transaction control

  datatype TxControl = Begin | Commit | Rollback

  function ControlOf(words: seq<string>): Option<TxControl> {
    if words == [] then None
    else if words[0] == "BEGIN" then Some(Begin)
    else if words[0] == "START" && |words| > 1 && words[1] == "TRANSACTION" then Some(Begin)
    else if words[0] in {"COMMIT", "END"} then Some(Commit)
    else if words[0] == "ROLLBACK" && |words| > 1 && words[1] == "TO" then None
    else if words[0] in {"ROLLBACK", "ABORT"} then Some(Rollback)
    else None
  }

  function TransactionControl(sql: string): Option<TxControl> { ControlOf(LeadingWords(sql, 2)) }
}
