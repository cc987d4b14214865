/**
  What opens a literal or comment and where it ends, spelled out byte by byte
  (src/sql.rs:50-86, src/sql.rs:107-221).
*/
module SqlEnds {
  import opened SqlLexer

  // ------------------------------------------------------------- dollar quotes

  /** An ASCII letter, a digit, an underscore, or a byte of a longer character. */
  predicate TagByte(c: char) {
    'a' <= c <= 'z' || 'A' <= c <= 'Z' || '0' <= c <= '9' || c == '_' || c as int >= 0x80
  }

  /** What may open a word, and what may stand in one. */
  lemma WordBytes(c: char)
    ensures IsIdentStart(c) <==> 'a' <= c <= 'z' || 'A' <= c <= 'Z' || c == '_' || c as int >= 0x80
    ensures IsIdentChar(c) <==> TagByte(c) || c == '$'
  {
  }

  /** The first `n` bytes are two `$` with nothing or a tag between them, which does not
      begin with a digit. */
  predicate DelimiterText(s: string, n: nat) {
    && 2 <= n <= |s| && s[0] == '$' && s[n - 1] == '$'
    && (forall i :: 0 < i < n - 1 ==> TagByte(s[i]))
    && (n > 2 ==> !('0' <= s[1] <= '9'))
  }

  lemma {:induction false} TagExactly(t: string, first: bool, m: nat)
    requires m > 0
    ensures TagLen(t, first) == m <==>
      && m <= |t| && t[m - 1] == '$'
      && (forall i :: 0 <= i < m - 1 ==> TagByte(t[i]))
      && (first && m > 1 ==> !('0' <= t[0] <= '9'))
    decreases |t|
  {
    if t != "" && t[0] != '$' && m > 1 {
      TagExactly(t[1..], false, m - 1);
      if m <= |t| {
        assert t[m - 1] == t[1..][m - 2];
        assert forall i :: 1 <= i < m - 1 ==> t[i] == t[1..][i - 1];
        assert forall i :: 0 <= i < m - 2 ==> t[1..][i] == t[i + 1];
      }
    }
  }

  /** A dollar-quote delimiter of `n` bytes opens the text exactly if it reads like one. */
  lemma DelimiterExactly(s: string, n: nat)
    requires s != "" && s[0] == '$' && n > 0
    ensures DelimLen(s) == n <==> DelimiterText(s, n)
  {
    if n > 1 {
      var t := s[1..];
      TagExactly(t, true, n - 1);
      if n <= |s| {
        assert t[n - 2] == s[n - 1];
        assert forall i :: 0 < i < n - 1 ==> s[i] == t[i - 1];
        assert forall i :: 0 <= i < n - 2 ==> t[i] == s[i + 1];
      }
    }
  }

  predicate CopyAt(s: string, d: string, j: nat) { j + |d| <= |s| && s[j..j + |d|] == d }

  /** The first copy of `d` from `from` on. */
  ghost predicate FirstCopy(s: string, d: string, from: nat, j: nat) {
    from <= j && CopyAt(s, d, j) && forall i: nat :: from <= i < j ==> !CopyAt(s, d, i)
  }

  ghost predicate NoCopy(s: string, d: string, from: nat) { forall i: nat :: from <= i ==> !CopyAt(s, d, i) }

  lemma CopyShift(s: string, d: string, n: nat, i: nat)
    requires n <= |s|
    ensures CopyAt(s[n..], d, i) == CopyAt(s, d, n + i)
  {
    if n + i + |d| <= |s| {
      assert s[n..][i..i + |d|] == s[n + i..n + i + |d|];
    }
  }

  lemma FirstShift(s: string, d: string, n: nat, j: nat)
    requires n <= |s| && FirstCopy(s, d, n, j)
    ensures FirstCopy(s[n..], d, 0, j - n)
  {
    hide CopyAt;
    CopyShift(s, d, n, j - n);
    forall i: nat | i < j - n ensures !CopyAt(s[n..], d, i) {
      CopyShift(s, d, n, i);
    }
  }

  lemma NoneShift(s: string, d: string, n: nat)
    requires n <= |s| && NoCopy(s, d, n)
    ensures NoCopy(s[n..], d, 0)
  {
    hide CopyAt;
    forall i: nat ensures !CopyAt(s[n..], d, i) {
      CopyShift(s, d, n, i);
    }
  }

  lemma CopyHere(s: string, d: string)
    ensures CopyAt(s, d, 0) <==> d <= s
  {
  }

  lemma {:induction false} DollarEnd(s: string, d: string, j: nat)
    requires d != "" && FirstCopy(s, d, 0, j)
    ensures DollarLen(s, d) == j + |d|
    decreases |s|
  {
    CopyHere(s, d);
    if j > 0 {
      assert !CopyAt(s, d, 0) && s != "";
      assert FirstCopy(s, d, 1, j);
      FirstShift(s, d, 1, j);
      DollarEnd(s[1..], d, j - 1);
    }
  }

  lemma {:induction false} DollarNone(s: string, d: string)
    requires d != "" && NoCopy(s, d, 0)
    ensures DollarLen(s, d) == |s|
    decreases |s|
  {
    CopyHere(s, d);
    assert !CopyAt(s, d, 0);
    if s != "" {
      assert NoCopy(s, d, 1);
      NoneShift(s, d, 1);
      DollarNone(s[1..], d);
    }
  }

  /** A text that opens with a delimiter is one dollar-quoted literal, up to the end of the
      first later copy of that delimiter, or to its own end if there is none. */
  lemma DollarQuotedExactly(s: string, n: nat)
    requires DelimiterText(s, n)
    ensures Opening(s) == DollarQuoted
    ensures NoCopy(s, s[..n], n) ==> StepLen(s) == |s|
    ensures forall j: nat :: FirstCopy(s, s[..n], n, j) ==> StepLen(s) == j + n
  {
    DelimiterExactly(s, n);
    var d := s[..n];
    if NoCopy(s, d, n) {
      NoneShift(s, d, n);
      DollarNone(s[n..], d);
    }
    forall j: nat | FirstCopy(s, d, n, j) ensures StepLen(s) == j + n {
      FirstShift(s, d, n, j);
      DollarEnd(s[n..], d, j - n);
    }
  }

  /** And only such a text is one. */
  lemma DollarQuotedOnly(s: string)
    requires s != ""
    ensures Opening(s) == DollarQuoted <==> exists n: nat :: DelimiterText(s, n)
  {
    if n: nat :| DelimiterText(s, n) {
      DelimiterExactly(s, n);
    }
    if Opening(s) == DollarQuoted {
      DelimiterExactly(s, DelimLen(s));
      assert DelimiterText(s, DelimLen(s));
    }
  }

  // ------------------------------------------------------------------- comments

  lemma {:induction false} LineIsFirst(s: string)
    ensures forall i :: 0 <= i < LineLen(s) ==> s[i] != '\n'
    ensures LineLen(s) < |s| ==> s[LineLen(s)] == '\n'
  {
    if s != "" && s[0] != '\n' {
      LineIsFirst(s[1..]);
      forall i | 0 <= i < LineLen(s) ensures s[i] != '\n' {
        if i > 0 {
          assert s[i] == s[1..][i - 1];
        }
      }
    }
  }

  /** Two dashes open a comment that ends before the first newline, or with the text. */
  lemma LineCommentExactly(s: string)
    requires |s| >= 2 && s[0] == '-' && s[1] == '-'
    ensures Opening(s) == LineComment
    ensures forall i :: 0 <= i < StepLen(s) ==> s[i] != '\n'
    ensures StepLen(s) < |s| ==> s[StepLen(s)] == '\n'
  {
    LineIsFirst(s);
  }

  predicate NoMarks(x: string) { forall i :: 0 <= i < |x| ==> x[i] != '*' && x[i] != '/' }

  lemma {:induction false} PlainInside(x: string, u: string, depth: nat)
    requires NoMarks(x) && depth > 0
    ensures BlockLen(x + u, depth) == |x| + BlockLen(u, depth)
  {
    if x == "" {
      assert x + u == u;
    } else {
      PlainInside(x[1..], u, depth);
      assert (x + u)[0] == x[0] && !("/*" <= x + u) && !("*/" <= x + u);
      assert (x + u)[1..] == x[1..] + u;
    }
  }

  lemma OpenInside(u: string, depth: nat)
    requires depth > 0
    ensures BlockLen("/*" + u, depth) == 2 + BlockLen(u, depth + 1)
    ensures BlockLen("*/" + u, depth) == 2 + BlockLen(u, depth - 1)
  {
    assert ("/*" + u)[2..] == u && ("*/" + u)[2..] == u;
    assert ("*/" + u)[0] == '*' && !("/*" <= "*/" + u);
  }

  /** A block comment ends at the mark that closes it, and not at one that closes a comment
      inside it. */
  lemma NestedComment(x: string, y: string, z: string, u: string)
    requires NoMarks(x) && NoMarks(y) && NoMarks(z)
    ensures var s := "/*" + (x + ("/*" + (y + ("*/" + (z + ("*/" + u))))));
      Opening(s) == BlockComment && StepLen(s) == |s| - |u|
    ensures var s := "/*" + (x + ("*/" + u)); Opening(s) == BlockComment && StepLen(s) == |s| - |u|
    ensures var s := "/*" + x; Opening(s) == BlockComment && StepLen(s) == |s|
  {
    hide BlockLen;
    var e := "*/" + u;
    var c := z + e;
    var b := "*/" + c;
    var a := "/*" + (y + b);
    CommentOpens(x + a);
    CommentOpens(x + e);
    CommentOpens(x);
    PlainInside(x, a, 1);
    OpenInside(y + b, 1);
    PlainInside(y, b, 2);
    OpenInside(c, 2);
    PlainInside(z, e, 1);
    OpenInside(u, 1);
    PlainInside(x, e, 1);
    NothingLeft(u);
    PlainInside(x, "", 1);
    assert x + "" == x;
  }

  lemma NothingLeft(u: string)
    ensures BlockLen(u, 0) == 0 && BlockLen("", 1) == 0
  {
  }

  lemma CommentOpens(u: string)
    ensures Opening("/*" + u) == BlockComment && StepLen("/*" + u) == 2 + BlockLen(u, 1)
  {
    assert ("/*" + u)[2..] == u;
  }

  // --------------------------------------------------------------------- strings

  /** Quotes doubled, as in a string literal. */
  function Doubled(t: string): string {
    if t == "" then "" else (if t[0] == '\'' then "''" else t[..1]) + Doubled(t[1..])
  }

  lemma {:induction false} DoubledEnds(t: string, u: string)
    requires '\\' !in t && (u == "" || u[0] != '\'')
    ensures SingleLen(Doubled(t) + "'" + u) == |Doubled(t)| + 1
  {
    var v := Doubled(t) + "'" + u;
    if t != "" {
      var k := if t[0] == '\'' then 2 else 1;
      DoubledEnds(t[1..], u);
      assert v[k..] == Doubled(t[1..]) + "'" + u;
    }
  }

  /** A text without a backslash, its quotes doubled, is one string between quotes. */
  lemma StringLexes(t: string, u: string)
    requires '\\' !in t && (u == "" || u[0] != '\'')
    ensures var q := "'" + Doubled(t) + "'"; Lex(q + u) == [Piece(SingleQuoted, q)] + Lex(u)
  {
    hide Opening, StepLen, Lex;
    var q := "'" + Doubled(t) + "'";
    StringStep(t, u);
    LexStep(q + u, q, u);
  }

  lemma StringStep(t: string, u: string)
    requires '\\' !in t && (u == "" || u[0] != '\'')
    ensures var q := "'" + Doubled(t) + "'"; Opening(q + u) == SingleQuoted && StepLen(q + u) == |q|
  {
    hide Doubled, SingleLen;
    DoubledEnds(t, u);
    var q := "'" + Doubled(t) + "'";
    assert (q + u)[1..] == Doubled(t) + "'" + u;
  }

  /** A backslash takes the byte after it into the string. */
  lemma BackslashTakes(c: char, u: string)
    ensures SingleLen("\\" + [c] + u) == 2 + SingleLen(u)
  {
    assert ("\\" + [c] + u)[2..] == u;
  }
}
