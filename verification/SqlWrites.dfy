/**
  Write keywords in code put around a statement (src/sql.rs:444-482 applied to the
  wraps of src/handlers.rs:339 and src/probe.rs:310).
*/
module SqlWrites {
  import opened SqlLexer
  import opened SqlRewrite
  import opened SqlTokens
  import opened SqlWords
  import opened SqlWrap

  ghost predicate AnyWrite(ps: seq<Piece>) { exists p :: p in ps && HasWriteWord(p) }

  predicate Avoids(t: string, letters: set<char>) { forall i :: 0 <= i < |t| ==> t[i] !in letters }

  /** A text that misses a letter of every write keyword. */
  predicate MissesKeywords(t: string) {
    && Avoids(t, {'N', 'n'}) && Avoids(t, {'U', 'u'})
    && (Avoids(t, {'D', 'd'}) || Avoids(t, {'E', 'e'}) || Avoids(t, {'T', 't'}))
    && (Avoids(t, {'G', 'g'}) || Avoids(t, {'E', 'e'}))
  }

  lemma KeywordLetters(u: string)
    requires u in WRITE_KEYWORDS
    ensures 'N' in u || 'U' in u || ('D' in u && 'E' in u && 'T' in u) || ('G' in u && 'E' in u)
  {
    if u == "INSERT" {
      assert u[1] == 'N';
    } else if u == "UPDATE" {
      assert u[0] == 'U';
    } else if u == "DELETE" {
      assert u[0] == 'D' && u[1] == 'E' && u[4] == 'T';
    } else {
      assert u[1] == 'E' && u[3] == 'G';
    }
  }

  lemma LetterAbsent(w: string, c: char)
    requires 'A' <= c <= 'Z'
    ensures Avoids(w, {c, (c as int + 32) as char}) ==> c !in Upper(w)
  {
  }

  lemma NoKeyword(w: string)
    requires MissesKeywords(w)
    ensures Upper(w) !in WRITE_KEYWORDS
  {
    LetterAbsent(w, 'N');
    LetterAbsent(w, 'U');
    LetterAbsent(w, 'D');
    LetterAbsent(w, 'G');
    LetterAbsent(w, 'E');
    LetterAbsent(w, 'T');
    if Upper(w) in WRITE_KEYWORDS {
      KeywordLetters(Upper(w));
    }
  }

  lemma NoWordInNothing()
    ensures !HasWrite(CodeWords(""))
  {
  }

  lemma MissesInSlice(t: string, i: nat, j: nat)
    requires i <= j <= |t| && MissesKeywords(t)
    ensures MissesKeywords(t[i..j])
  {
  }

  lemma WordIsSlice(t: string, w: string) returns (i: nat, j: nat)
    requires w in CodeWords(t)
    ensures i <= j <= |t| && t[i..j] == w
  {
    assert t[0..] == t;
    assert RunFrom(t, 0, 0);
    CodeWordsFrom(t, 0, w);
    i, j :| WordAt(t, i, j) && t[i..j] == w;
  }

  lemma NoWriteWithout(t: string)
    requires MissesKeywords(t)
    ensures !HasWrite(CodeWords(t))
  {
    hide MissesKeywords, CodeWords;
    forall w | w in CodeWords(t) ensures Upper(w) !in WRITE_KEYWORDS {
      var i, j := WordIsSlice(t, w);
      MissesInSlice(t, i, j);
      NoKeyword(w);
    }
  }

  lemma {:induction false} CodeWordsConcat(a: string, b: string)
    requires EndsWord(b)
    ensures CodeWords(a + b) == CodeWords(a) + CodeWords(b)
    decreases |a|
  {
    var t := a + b;
    if a == "" {
      assert t == b;
    } else if IsIdentStart(a[0]) {
      var n := WordLen(a);
      WordLenConcat(a, b);
      CodeWordsConcat(a[n..], b);
      assert t[..n] == a[..n] && t[n..] == a[n..] + b;
    } else {
      CodeWordsConcat(a[1..], b);
      assert t[1..] == a[1..] + b;
    }
  }

  lemma {:induction false} WordLenConcat(a: string, b: string)
    requires EndsWord(b)
    ensures WordLen(a + b) == WordLen(a)
  {
    if a == "" {
      assert a + b == b;
    } else {
      WordLenConcat(a[1..], b);
      assert (a + b)[1..] == a[1..] + b;
    }
  }

  /** Punctuation keeps the words on its two sides apart. */
  lemma WriteApart(a: string, c: char, b: string)
    requires !IsIdentChar(c)
    ensures HasWrite(CodeWords(a + [c] + b)) <==> HasWrite(CodeWords(a)) || HasWrite(CodeWords(b))
  {
    assert a + [c] + b == a + ([c] + b);
    CodeWordsConcat(a, [c] + b);
    assert ([c] + b)[1..] == b;
    assert CodeWords([c] + b) == CodeWords(b);
    WriteConcat(CodeWords(a), CodeWords(b));
  }

  lemma WriteConcat(a: seq<string>, b: seq<string>)
    ensures HasWrite(a + b) <==> HasWrite(a) || HasWrite(b)
  {
  }

  lemma AnyWriteConcat(a: seq<Piece>, b: seq<Piece>)
    ensures AnyWrite(a + b) <==> AnyWrite(a) || AnyWrite(b)
  {
  }

  lemma AnyWriteOne(p: Piece)
    ensures AnyWrite([p]) <==> HasWriteWord(p)
  {
    assert p in [p];
  }

  /** Harmless code in front that ends in punctuation adds no write keyword. */
  lemma AnyWritePrepend(a: string, c: char, ps: seq<Piece>)
    requires MissesKeywords(a) && !IsIdentChar(c)
    ensures AnyWrite(Prepend(Code, a + [c], ps)) <==> AnyWrite(ps)
  {
    hide CodeWords, MissesKeywords;
    NoWriteWithout(a);
    if ps != [] && ps[0].segment == Code {
      var p := Piece(Code, a + [c] + ps[0].text);
      WriteApart(a, c, ps[0].text);
      AnyWriteOne(p);
      AnyWriteOne(ps[0]);
      AnyWriteConcat([p], ps[1..]);
      assert ps == [ps[0]] + ps[1..];
      AnyWriteConcat([ps[0]], ps[1..]);
    } else {
      var p := Piece(Code, a + [c]);
      assert a + [c] + "" == a + [c];
      WriteApart(a, c, "");
      NoWordInNothing();
      AnyWriteOne(p);
      AnyWriteConcat([p], ps);
    }
  }

  lemma AnyWriteExtend(ps: seq<Piece>, c: char, b: string)
    requires MissesKeywords(b) && !IsIdentChar(c)
    ensures AnyWrite(Extend(ps, [c] + b)) <==> AnyWrite(ps)
  {
    hide CodeWords, MissesKeywords, Closed;
    NoWriteWithout(b);
    if ps != [] && (ps[|ps| - 1].segment == Code || !Closed(ps)) {
      var n := |ps| - 1;
      var p := Piece(ps[n].segment, ps[n].text + ([c] + b));
      assert ps[n].text + ([c] + b) == ps[n].text + [c] + b;
      WriteApart(ps[n].text, c, b);
      AnyWriteOne(p);
      AnyWriteOne(ps[n]);
      AnyWriteConcat(ps[..n], [p]);
      assert ps == ps[..n] + [ps[n]];
      AnyWriteConcat(ps[..n], [ps[n]]);
    } else {
      assert "" + [c] + b == [c] + b;
      WriteApart("", c, b);
      NoWordInNothing();
      AnyWriteOne(Piece(Code, [c] + b));
      AnyWriteConcat(ps, [Piece(Code, [c] + b)]);
    }
  }

  /** A wrap that holds no write keyword of its own adds none to the statement. */
  lemma WrapWritesNothing(before: string, sql: string, after: string)
    requires MissesKeywords(before) && MissesKeywords(after)
    ensures AnyWrite(Prepend(Code, before + "(", Extend(Lex(sql), ")" + after))) <==> ModifiesData(sql)
  {
    hide Lex, Extend, Prepend, CodeWords, MissesKeywords, HasWriteWord;
    AnyWriteExtend(Lex(sql), ')', after);
    AnyWritePrepend(before, '(', Extend(Lex(sql), ")" + after));
    assert before + ['('] == before + "(" && [')'] + after == ")" + after;
  }
}
