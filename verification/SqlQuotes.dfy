/**
  Where a quoted string ends: as the lexer of src/sql.rs:109-159 has it, with a
  backslash escaping the byte after it in every string, and as a standard string has
  it, where only a doubled quote stands for a quote (section 4.1.2.1 of the PostgreSQL
  manual).
*/
module SqlQuotes {
  import opened SqlLexer

  // ------------------------------------------------------------- runs of one byte

  /** How many backslashes stand directly before offset `j`. */
  function RunBefore(s: string, j: nat): (n: nat)
    requires j <= |s|
    ensures n <= j
  {
    if j > 0 && s[j - 1] == '\\' then 1 + RunBefore(s, j - 1) else 0
  }

  /** How many `c` the text ends in. */
  function TrailingRun(s: string, c: char): (n: nat)
    ensures n <= |s|
    ensures forall i :: |s| - n <= i < |s| ==> s[i] == c
    ensures n < |s| ==> s[|s| - n - 1] != c
  {
    if s != "" && s[|s| - 1] == c then 1 + TrailingRun(s[..|s| - 1], c) else 0
  }

  lemma {:induction false} TrailingRunIs(s: string, c: char, n: nat)
    requires n <= |s|
    requires forall i :: |s| - n <= i < |s| ==> s[i] == c
    requires n < |s| ==> s[|s| - n - 1] != c
    ensures TrailingRun(s, c) == n
  {
  }

  /** A quote that a backslash escapes: an odd run of them stands before it. */
  predicate EscapedQuote(s: string, j: nat) { j < |s| && s[j] == '\'' && RunBefore(s, j) % 2 == 1 }

  // -------------------------------------------------------------- a step from the left

  /** A step of the lexer inside a string, shown to leave the parity of every run of
      backslashes after it alone. */
  lemma {:induction false} RunShift(s: string, k: nat, j: nat)
    requires k <= j <= |s|
    requires RunBefore(s, k) % 2 == 0
    ensures RunBefore(s, j) % 2 == RunBefore(s[k..], j - k) % 2
    decreases j
  {
    if j > k && s[j - 1] == '\\' {
      RunShift(s, k, j - 1);
      assert s[k..][j - 1 - k] == s[j - 1];
    } else if j > k {
      assert s[k..][j - 1 - k] == s[j - 1];
    }
  }

  lemma MoveIsEven(s: string)
    requires s != "" && SingleMove(s) > 0 && s != "\\"
    ensures RunBefore(s, SingleMove(s)) % 2 == 0
  {
    var k := SingleMove(s);
    assert RunBefore(s, 0) == 0;
    if k == 2 && s[1] == '\\' {
      assert RunBefore(s, 1) == if s[0] == '\\' then 1 else 0;
    }
  }

  // ------------------------------------------------------------- closed or run out

  /** The string ends in a quote that neither a backslash nor another quote takes: an
      odd number of quotes at the end, not counting the one that is escaped. */
  predicate ClosedSingle(t: string) {
    var q := TrailingRun(t, '\'');
    q > 0 && (q + RunBefore(t, |t| - q)) % 2 == 1
  }

  /** The identifier ends in an odd number of quotes. */
  predicate ClosedDouble(t: string) { TrailingRun(t, '"') % 2 == 1 }

  lemma ClosedShift(t: string, k: nat)
    requires t != "" && k == SingleMove(t) > 0
    ensures ClosedSingle(t) <==> ClosedSingle(t[k..])
  {
    hide TrailingRun, SingleLen;
    var rest := t[k..];
    var q := TrailingRun(rest, '\'');
    forall i | |t| - q <= i < |t| ensures t[i] == '\'' {
      assert t[i] == rest[i - k];
    }
    if t != "\\" {
      MoveIsEven(t);
    }
    if q < |rest| {
      assert t[|t| - q - 1] == rest[|rest| - q - 1];
      TrailingRunIs(t, '\'', q);
      RunShift(t, k, |t| - q);
    } else {
      ClosedInQuotes(t, k, q);
    }
  }

  lemma ClosedInQuotes(t: string, k: nat, q: nat)
    requires t != "" && k == SingleMove(t) > 0 && q == |t| - k == TrailingRun(t[k..], '\'')
    requires forall i :: k <= i < |t| ==> t[i] == '\''
    requires t != "\\" ==> RunBefore(t, k) % 2 == 0
    ensures ClosedSingle(t) <==> ClosedSingle(t[k..])
  {
    hide TrailingRun, SingleLen;
    assert RunBefore(t[k..], 0) == 0;
    if t[k - 1] != '\'' {
      TrailingRunIs(t, '\'', q);
    } else if t[0] == '\'' {
      TrailingRunIs(t, '\'', q + 2);
    } else {
      TrailingRunIs(t, '\'', q + 1);
      assert RunBefore(t, 0) == 0 && RunBefore(t, 1) == 1;
    }
  }

  lemma MoveBeforeCode(t: string)
    requires t != "" && t != "\\"
    ensures SingleMove(t + ")") == SingleMove(t)
    ensures SingleMove(t) > 0 ==> (t + ")")[SingleMove(t)..] == t[SingleMove(t)..] + ")"
  {
  }

  /** A string that reaches the end of the text closes there, so that code put behind it
      stays code, exactly if it is closed in this sense. */
  lemma {:induction false} SingleClosesExactly(t: string)
    requires SingleLen(t) == |t|
    ensures SingleLen(t + ")") == |t| <==> ClosedSingle(t)
    decreases |t|
  {
    if t == "" {
      assert t + ")" == ")";
    } else if t == "\\" {
      assert (t + ")")[2..] == "";
    } else {
      var k := SingleMove(t);
      MoveBeforeCode(t);
      if k > 0 {
        SingleClosesExactly(t[k..]);
        ClosedShift(t, k);
      } else {
        assert t == "'";
        TrailingRunIs(t, '\'', 1);
      }
    }
  }

  lemma DoubleShift(t: string, k: nat)
    requires t != "" && k == DoubleMove(t) > 0
    ensures ClosedDouble(t) <==> ClosedDouble(t[k..])
  {
    var rest := t[k..];
    var q := TrailingRun(rest, '"');
    forall i | |t| - q <= i < |t| ensures t[i] == '"' {
      assert t[i] == rest[i - k];
    }
    if q < |rest| {
      assert t[|t| - q - 1] == rest[|rest| - q - 1];
      TrailingRunIs(t, '"', q);
    } else {
      TrailingRunIs(t, '"', if t[0] == '"' then q + 2 else q);
    }
  }

  lemma {:induction false} DoubleClosesExactly(t: string)
    requires DoubleLen(t) == |t|
    ensures DoubleLen(t + ")") == |t| <==> ClosedDouble(t)
    decreases |t|
  {
    if t == "" {
      assert t + ")" == ")";
    } else {
      var k := DoubleMove(t);
      assert DoubleMove(t + ")") == k;
      if k > 0 {
        assert (t + ")")[k..] == t[k..] + ")";
        DoubleClosesExactly(t[k..]);
        DoubleShift(t, k);
      } else {
        assert t == "\"";
        TrailingRunIs(t, '"', 1);
      }
    }
  }

  // ------------------------------------------------------------- standard strings

  /** Bytes of a standard string after its opening quote: a quote is doubled, and a
      backslash is an ordinary byte. */
  function StandardLen(s: string): (n: nat)
    ensures n <= |s|
    ensures s != "" ==> n > 0
  {
    if s == "" then 0
    else if s[0] == '\'' then if |s| > 1 && s[1] == '\'' then 2 + StandardLen(s[2..]) else 1
    else 1 + StandardLen(s[1..])
  }

  predicate AllQuotes(s: string) { forall i :: 0 <= i < |s| ==> s[i] == '\'' }

  /** No backslash escapes a quote of the literal, unless nothing but quotes is left of
      the text from there on. */
  ghost predicate NoEscapeMatters(s: string, end: nat)
    requires end <= |s|
  {
    forall j :: 0 <= j < end && EscapedQuote(s, j) ==> AllQuotes(s[j..])
  }

  /** Once a quote was escaped, the two readings are one quote apart. */
  lemma {:induction false} OneQuoteApart(r: string)
    ensures StandardLen("'" + r) == 1 + SingleLen(r) <==> AllQuotes(r)
    decreases |r|
  {
    var s := "'" + r;
    if |r| > 1 && r[0] == '\'' && r[1] == '\'' {
      OneQuoteApart(r[2..]);
      assert s[2..] == "'" + r[2..];
      assert AllQuotes(r) <==> AllQuotes(r[2..]) by {
        assert forall i :: 2 <= i < |r| ==> r[i] == r[2..][i - 2];
      }
    } else if r != "" {
      assert s[1] == r[0] && s[2..] == r[1..];
      SingleTakesSome(r);
    }
  }

  lemma EscapeShift(s: string, k: nat, end: nat)
    requires s != "" && s != "\\" && k == SingleMove(s) > 0 && !(s[0] == '\\' && s[1] == '\'')
    requires k <= end <= |s|
    ensures NoEscapeMatters(s, end) <==> NoEscapeMatters(s[k..], end - k)
  {
    var rest := s[k..];
    MoveIsEven(s);
    forall j | 0 <= j < k ensures !EscapedQuote(s, j) {
      if j == 1 {
        assert RunBefore(s, 0) == 0;
      }
    }
    forall j | k <= j < end ensures EscapedQuote(s, j) == EscapedQuote(rest, j - k) && s[j..] == rest[j - k..] {
      RunShift(s, k, j);
    }
    forall j | 0 <= j < end - k ensures EscapedQuote(rest, j) == EscapedQuote(s, j + k) && rest[j..] == s[j + k..] {
      RunShift(s, k, j + k);
    }
  }

  /** The lexer's strings end where standard strings do exactly if no backslash escapes a
      quote inside one, or only where the text is about to run out in quotes. */
  lemma {:induction false} StandardExactly(s: string)
    ensures StandardLen(s) == SingleLen(s) <==> NoEscapeMatters(s, SingleLen(s))
    decreases |s|
  {
    if s == "" || s == "\\" {
    } else {
      var k := SingleMove(s);
      if k == 0 {
        assert RunBefore(s, 0) == 0;
      } else if s[0] == '\\' && s[1] == '\'' {
        EscapedFirst(s);
      } else {
        StandardMove(s, k);
        StandardExactly(s[k..]);
        EscapeShift(s, k, SingleLen(s));
      }
    }
  }

  lemma StandardMove(s: string, k: nat)
    requires s != "" && k == SingleMove(s) > 0 && !(|s| > 1 && s[0] == '\\' && s[1] == '\'')
    ensures StandardLen(s) == k + StandardLen(s[k..])
  {
    if k == 2 && s[0] == '\\' {
      assert s[1..][1..] == s[2..];
    }
  }

  lemma EscapedFirst(s: string)
    requires |s| > 1 && s[0] == '\\' && s[1] == '\''
    ensures StandardLen(s) == SingleLen(s) <==> NoEscapeMatters(s, SingleLen(s))
  {
    var r := s[2..];
    assert s[1..] == "'" + r;
    OneQuoteApart(r);
    assert RunBefore(s, 0) == 0 && RunBefore(s, 1) == 1;
    assert EscapedQuote(s, 1);
    assert AllQuotes(s[1..]) <==> AllQuotes(r);
    if AllQuotes(r) {
      forall j | 0 <= j < SingleLen(s) && EscapedQuote(s, j) ensures AllQuotes(s[j..]) {
        assert s[j] == '\'' && j >= 1;
        assert forall i :: 0 <= i < |s[j..]| ==> s[j..][i] == s[1..][i + j - 1];
      }
    }
  }

  /** The literal `'\'` is a whole standard string; the lexer runs on past it, and takes
      what follows into the literal. */
  lemma BackslashExample(rest: string)
    requires rest != "" && rest[0] != '\''
    ensures StandardLen("\\'" + rest) == 2
    ensures SingleLen("\\'" + rest) == 2 + SingleLen(rest) > 2
  {
    var s := "\\'" + rest;
    assert s[2..] == rest && s[1..] == "'" + rest;
    SingleTakesSome(rest);
  }
}
