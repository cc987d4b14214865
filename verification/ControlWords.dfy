/**
  The words that open a statement, and what each makes of it: src/sql.rs:383-436,
  src/exec.rs:166-189 and, over whole connections, src/handlers.rs:139-183.
*/
module ControlWords {
  import opened Wrappers
  import opened DataApi
  import opened SqlLexer
  import opened SqlRewrite
  import opened SqlTokens
  import opened SqlWords
  import opened Transactions
  import opened Portals
  import opened Fallback

  // ------------------------------------------------------------ the leading words

  /** What a code run with these words gives, with `ps` behind it. */
  function Then(run: (seq<string>, bool), ps: seq<Piece>, max: nat): seq<string>
    requires |run.0| <= max
  {
    if run.1 || |run.0| == max then run.0 else run.0 + Leading(ps, max - |run.0|)
  }

  lemma {:induction false} FewWords(t: string, max: nat)
    ensures |CodeLeading(t, max).0| <= max
    decreases |t|
  {
    if t != "" && max > 0 {
      if IsIdentStart(t[0]) {
        FewWords(t[WordLen(t)..], max - 1);
      } else {
        FewWords(t[1..], max);
      }
    }
  }

  lemma LeadingFirst(t: string, ps: seq<Piece>, max: nat)
    ensures |CodeLeading(t, max).0| <= max
    ensures Leading([Piece(Code, t)] + ps, max) == Then(CodeLeading(t, max), ps, max)
  {
    FewWords(t, max);
    assert ([Piece(Code, t)] + ps)[1..] == ps;
  }

  /** A code run in front joins the code behind it. */
  lemma LeadingPrepend(t: string, ps: seq<Piece>, max: nat)
    ensures |CodeLeading(t, max).0| <= max
    ensures ps != [] ==> |CodeLeading(t + ps[0].text, max).0| <= max
    ensures Leading(Prepend(Code, t, ps), max) ==
      if ps != [] && ps[0].segment == Code then Then(CodeLeading(t + ps[0].text, max), ps[1..], max)
      else Then(CodeLeading(t, max), ps, max)
  {
    hide Leading, CodeLeading, Then;
    LeadingFirst(t, ps, max);
    if ps != [] {
      LeadingFirst(t + ps[0].text, ps[1..], max);
    }
  }

  lemma LeadingOf(ps: seq<Piece>, max: nat)
    requires ps != [] && ps[0].segment == Code
    ensures |CodeLeading(ps[0].text, max).0| <= max
    ensures Leading(ps, max) == Then(CodeLeading(ps[0].text, max), ps[1..], max)
  {
    LeadingFirst(ps[0].text, ps[1..], max);
    assert ps == [Piece(Code, ps[0].text)] + ps[1..];
  }

  lemma {:induction false} NoneOfNone(ps: seq<Piece>)
    ensures Leading(ps, 0) == []
  {
    if ps != [] {
      NoneOfNone(ps[1..]);
    }
  }

  lemma OneByteFirst(c: char, u: string)
    requires c !in {'\'', '"', '$', '-', '/'}
    ensures Lex([c] + u) == Prepend(Code, [c], Lex(u))
  {
    assert ([c] + u)[0] == c;
    LexStep([c] + u, [c], u);
  }

  /** White space in front changes nothing. */
  lemma SpaceFirst(c: char, u: string, max: nat)
    requires c in {' ', '\t', '\n', '\r', 12 as char}
    ensures LeadingWords([c] + u, max) == LeadingWords(u, max)
  {
    OneByteFirst(c, u);
    hide Lex, Leading, Prepend;
    SpacePieces(c, Lex(u), max);
  }

  lemma SpacePieces(c: char, ps: seq<Piece>, max: nat)
    requires IsAsciiSpace(c)
    ensures Leading(Prepend(Code, [c], ps), max) == Leading(ps, max)
  {
    hide Leading, Prepend, CodeLeading;
    LeadingPrepend([c], ps, max);
    if ps != [] && ps[0].segment == Code {
      SpaceInRun(c, ps[0].text, max);
      LeadingOf(ps, max);
    } else {
      SpaceInRun(c, "", max);
      NoneOfNone(ps);
      assert [c] + "" == [c];
    }
  }

  lemma SpaceInRun(c: char, t: string, max: nat)
    requires IsAsciiSpace(c)
    ensures CodeLeading([c] + t, max) == CodeLeading(t, max) && CodeLeading("", max) == ([], false)
  {
    assert ([c] + t)[1..] == t;
  }

  /** A word in front, of any case, is the first word. */
  lemma WordFirst(w: string, u: string, max: nat)
    requires IsWord(w) && EndsWord(u)
    ensures LeadingWords(w + u, max) == if max == 0 then [] else [Upper(w)] + LeadingWords(u, max - 1)
  {
    WordLexes(w, u);
    LexOpens(u);
    hide Lex, Leading, Upper, Prepend, IsWord;
    WordPieces(w, Lex(u), max);
  }

  lemma WordPieces(w: string, ps: seq<Piece>, max: nat)
    requires IsWord(w) && (ps != [] ==> EndsWord(ps[0].text))
    ensures Leading(Prepend(Code, w, ps), max) == if max == 0 then [] else [Upper(w)] + Leading(ps, max - 1)
  {
    hide Leading, Upper, Prepend, CodeLeading, IsWord;
    if max == 0 {
      NoneOfNone(Prepend(Code, w, ps));
      return;
    }
    LeadingPrepend(w, ps, max);
    if ps != [] && ps[0].segment == Code {
      WordInRun(w, ps[0].text, max);
      LeadingOf(ps, max - 1);
      hide Then;
      WordThen(Upper(w), CodeLeading(ps[0].text, max - 1), ps[1..], max);
    } else {
      WordInRun(w, "", max);
      NoneOfNone(ps);
      assert w + "" == w && [Upper(w)] + [] == [Upper(w)];
    }
  }

  lemma LexOpens(u: string)
    ensures Lex(u) != [] ==> u != "" && Lex(u)[0].text != "" && Lex(u)[0].text[0] == u[0]
  {
    LexHead(u);
  }

  lemma WordThen(w: string, run: (seq<string>, bool), ps: seq<Piece>, max: nat)
    requires max > 0 && |run.0| <= max - 1
    ensures Then(([w] + run.0, run.1), ps, max) == [w] + Then(run, ps, max - 1)
  {
    hide Leading;
    assert [w] + (run.0 + Leading(ps, max - 1 - |run.0|)) == ([w] + run.0) + Leading(ps, max - 1 - |run.0|);
  }

  lemma WordInRun(w: string, t: string, max: nat)
    requires IsWord(w) && EndsWord(t) && max > 0
    ensures CodeLeading(w + t, max) == ([Upper(w)] + CodeLeading(t, max - 1).0, CodeLeading(t, max - 1).1)
    ensures t == "" ==> CodeLeading(t, max - 1) == ([], false)
  {
    WordEndsThere(w, t);
    assert (w + t)[..|w|] == w && (w + t)[|w|..] == t && (w + t)[0] == w[0];
  }

  lemma {:induction false} WordEndsThere(w: string, t: string)
    requires (forall i :: 0 <= i < |w| ==> IsIdentChar(w[i])) && EndsWord(t)
    ensures WordLen(w + t) == |w|
  {
    if w == "" {
      assert w + t == t;
    } else {
      assert (w + t)[1..] == w[1..] + t;
      WordEndsThere(w[1..], t);
    }
  }

  /** So does a comment. */
  lemma CommentFirst(c: string, u: string, max: nat)
    requires c != "" && Opening(c + u) in {LineComment, BlockComment} && StepLen(c + u) == |c|
    ensures LeadingWords(c + u, max) == LeadingWords(u, max)
  {
    LexStep(c + u, c, u);
    assert ([Piece(Opening(c + u), c)] + Lex(u))[1..] == Lex(u);
  }

  /** Any other byte of code, a literal or a quoted name ends the words. */
  lemma OtherFirst(s: string, max: nat)
    requires s != ""
    requires Opening(s) in {SingleQuoted, DoubleQuoted, DollarQuoted} ||
      (Opening(s) == Code && !IsIdentStart(s[0]) && s[0] !in {' ', '\t', '\n', '\r', 12 as char})
    ensures LeadingWords(s, max) == []
  {
    var n := StepLen(s);
    LexStep(s, s[..n], s[n..]);
    if Opening(s) == Code {
      LeadingPrepend(s[..1], Lex(s[1..]), max);
      NoneOfNone(Lex(s[1..]));
    }
  }

  lemma NothingFirst(max: nat)
    ensures LeadingWords("", max) == []
  {
  }

  /** Letters are compared in upper case, and no other byte changes. */
  lemma UpperExactly(s: string)
    ensures |Upper(s)| == |s|
    ensures forall i :: 0 <= i < |s| ==>
      Upper(s)[i] == if 'a' <= s[i] <= 'z' then (s[i] as int - 'a' as int + 'A' as int) as char else s[i]
  {
  }

  // ------------------------------------------------------------- what they ask for

  /** BEGIN, or START TRANSACTION. */
  predicate OpensTransaction(words: seq<string>) {
    |words| > 0 && (words[0] == "BEGIN" || (words[0] == "START" && |words| > 1 && words[1] == "TRANSACTION"))
  }

  /** COMMIT or END. */
  predicate CommitsTransaction(words: seq<string>) { |words| > 0 && (words[0] == "COMMIT" || words[0] == "END") }

  /** ABORT, or ROLLBACK that does not go on with TO. */
  predicate RollsBackTransaction(words: seq<string>) {
    |words| > 0 && (words[0] == "ABORT" || (words[0] == "ROLLBACK" && !(|words| > 1 && words[1] == "TO")))
  }

  /** Which statements are transaction control, over all texts. */
  lemma ControlExactly(sql: string)
    ensures var words := LeadingWords(sql, 2);
      && (TransactionControl(sql) == Some(Begin) <==> OpensTransaction(words))
      && (TransactionControl(sql) == Some(Commit) <==> CommitsTransaction(words))
      && (TransactionControl(sql) == Some(Rollback) <==> RollsBackTransaction(words))
      && (TransactionControl(sql) == None <==>
            !OpensTransaction(words) && !CommitsTransaction(words) && !RollsBackTransaction(words))
  {
    hide LeadingWords;
  }

  /** Which could change a shape. */
  lemma SchemaExactly(sql: string)
    ensures ChangesSchema(sql) <==>
      && |LeadingWords(sql, 1)| > 0
      && (LeadingWords(sql, 1)[0] == "CREATE" || LeadingWords(sql, 1)[0] == "ALTER" ||
          LeadingWords(sql, 1)[0] == "DROP" || LeadingWords(sql, 1)[0] == "REINDEX" ||
          LeadingWords(sql, 1)[0] == "REFRESH")
  {
    hide LeadingWords;
  }

  // ---------------------------------------------------------- over whole connections

  /** The statement that a command runs, as the client wrote it. */
  function TextOf(c: Command): string {
    match c
    case DescribePortal(_, raw, _) => raw
    case ExecutePortal(_, raw, _) => raw
    case SimpleStatement(text) => text
    case Other(_) => ""
  }

  /** A call that opens or ends a transaction was made during this command for a reason,
      and none was made during a Describe. */
  ghost predicate Meant(call: Call, c: Command) {
    var words := LeadingWords(TextOf(c), 2);
    (call.Execute? || !c.DescribePortal?) &&
    match call
    case BeginTx => if c.Other? then c.op == Control(Begin) || c.op.OwnProbe? else OpensTransaction(words)
    case CommitTx(_) => if c.Other? then c.op == Control(Commit) else CommitsTransaction(words)
    case RollbackTx(_) =>
      if c.Other? then c.op in {Control(Commit), Control(Rollback), Disconnect(true)} || c.op.OwnProbe?
      else RollsBackTransaction(words) || CommitsTransaction(words)
    case Execute(_, _, _) => true
  }

  ghost predicate AllMeant(calls: seq<Call>, c: Command) { forall k :: 0 <= k < |calls| ==> Meant(calls[k], c) }

  lemma RunMeant(l: Ledger, raw: string, stmt: Prepared, c: Command, w: World)
    requires !c.Other? && TextOf(c) == raw && (c.DescribePortal? ==> TransactionControl(raw).None?)
    ensures AllMeant(RunCalls(l, raw, stmt, w), c)
  {
    hide LeadingWords, TransactionControl, Attempted;
    ControlExactly(raw);
  }

  lemma Behind<T>(a: seq<T>, b: seq<T>)
    ensures (a + b)[|a|..] == b
  {
  }

  lemma OtherMeant(l: Ledger, op: Op, w: World)
    ensures var after := Step(l, op, w.oracle).log; l.log <= after && AllMeant(after[|l.log|..], Other(op))
  {
    hide LeadingWords;
  }

  lemma CommandMeant(s: State, c: Command, w: World)
    ensures AllMeant(Growth(s, Next(s, c, w).0), c)
  {
    hide LeadingWords, TransactionControl, Ran, RunCalls, Meant;
    var log := s.ledger.log;
    match c {
      case DescribePortal(_, raw, stmt) =>
        DescribeAlone(s, c.portal, raw, stmt, w);
        if stmt.Ok? && TransactionControl(raw).None? { RunMeant(s.ledger, raw, stmt.value, c, w); }
      case ExecutePortal(_, raw, stmt) =>
        if stmt.Ok? {
          RunMeant(s.ledger, raw, stmt.value, c, w);
          RanMakes(s.ledger, raw, stmt.value, w);
          Behind(log, RunCalls(s.ledger, raw, stmt.value, w));
        }
      case SimpleStatement(text) =>
        RunMeant(s.ledger, text, SimplePrepared(text), c, w);
        RanMakes(s.ledger, text, SimplePrepared(text), w);
        Behind(log, RunCalls(s.ledger, text, SimplePrepared(text), w));
      case Other(op) => OtherMeant(s.ledger, op, w);
    }
  }

  /** Over every run, whatever the replies: a commit goes out only during a command whose
      statement opens with COMMIT or END, a transaction is opened only during one that asks
      for it, and rolled back only during one that ends it; the proxy's own operations and
      a client that goes away apart. */
  lemma {:induction false} EveryCallMeant(s: State, cs: seq<Command>, w: World, k: nat)
    requires k < |Trace(s, cs, w)|
    ensures Meant(Trace(s, cs, w)[k].call, Trace(s, cs, w)[k].during)
    decreases |cs|
  {
    hide Next, Meant, Growth;
    var next := Next(s, cs[0], w).0;
    var grown := Growth(s, next);
    CommandMeant(s, cs[0], w);
    if k >= |grown| {
      EveryCallMeant(next, cs[1..], w, k - |grown|);
    }
  }
}
