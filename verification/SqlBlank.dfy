/** Which statements are blank, spelled out (src/sql.rs:373-378). */
module SqlBlank {
  import opened SqlLexer
  import opened SqlSplit

  /** The UTF-8 forms of the characters that `str::trim` strips. */
  const WHITE: set<string> := {
    "\t", "\n", [0x0B as char], [0x0C as char], "\r", " ",
    [0xC2 as char, 0x85 as char], [0xC2 as char, 0xA0 as char], [0xE1 as char, 0x9A as char, 0x80 as char],
    [0xE2 as char, 0x80 as char, 0x80 as char], [0xE2 as char, 0x80 as char, 0x81 as char],
    [0xE2 as char, 0x80 as char, 0x82 as char], [0xE2 as char, 0x80 as char, 0x83 as char],
    [0xE2 as char, 0x80 as char, 0x84 as char], [0xE2 as char, 0x80 as char, 0x85 as char],
    [0xE2 as char, 0x80 as char, 0x86 as char], [0xE2 as char, 0x80 as char, 0x87 as char],
    [0xE2 as char, 0x80 as char, 0x88 as char], [0xE2 as char, 0x80 as char, 0x89 as char],
    [0xE2 as char, 0x80 as char, 0x8A as char], [0xE2 as char, 0x80 as char, 0xA8 as char],
    [0xE2 as char, 0x80 as char, 0xA9 as char], [0xE2 as char, 0x80 as char, 0xAF as char],
    [0xE2 as char, 0x81 as char, 0x9F as char], [0xE3 as char, 0x80 as char, 0x80 as char]
  }

  /** White space characters one after the other. */
  predicate WhiteText(s: string, parts: seq<string>)
    decreases |parts|
  {
    if parts == [] then s == ""
    else parts[0] in WHITE && parts[0] <= s && WhiteText(s[|parts[0]|..], parts[1..])
  }

  lemma SpaceExactly(s: string, c: string)
    requires c <= s && c in WHITE
    ensures SpaceLen(s) == |c| > 0
  {
    assert forall i :: 0 <= i < |c| ==> s[i] == c[i];
  }

  lemma SpaceIsWhite(s: string)
    requires SpaceLen(s) > 0
    ensures s[..SpaceLen(s)] in WHITE
  {
    var n := SpaceLen(s);
    assert n == 1 ==> s[..n] == [s[0]];
    assert n == 2 ==> s[..n] == [s[0], s[1]];
    assert n == 3 ==> s[..n] == [s[0], s[1], s[2]];
  }

  lemma {:induction false} WhiteIsSpace(s: string, parts: seq<string>)
    requires WhiteText(s, parts)
    ensures AllSpace(s)
    decreases |parts|
  {
    if parts != [] {
      SpaceExactly(s, parts[0]);
      WhiteIsSpace(s[|parts[0]|..], parts[1..]);
    }
  }

  lemma {:induction false} SpaceHasParts(s: string) returns (parts: seq<string>)
    requires AllSpace(s)
    ensures WhiteText(s, parts)
    decreases |s|
  {
    parts := [];
    if s != "" {
      var n := SpaceLen(s);
      SpaceIsWhite(s);
      var rest := SpaceHasParts(s[n..]);
      parts := [s[..n]] + rest;
      assert parts[1..] == rest;
    }
  }

  ghost predicate IsWhiteText(s: string) { exists parts :: WhiteText(s, parts) }

  lemma WhiteExactly(s: string)
    ensures AllSpace(s) <==> IsWhiteText(s)
  {
    if AllSpace(s) {
      var parts := SpaceHasParts(s);
    }
    if parts :| WhiteText(s, parts) {
      WhiteIsSpace(s, parts);
    }
  }

  /** A statement is blank exactly if each of its spans is a line comment, a block comment,
      or white space characters one after the other. */
  lemma BlankExactly(s: string)
    ensures IsBlank(s) <==> forall p :: p in Lex(s) ==>
      p.segment == LineComment || p.segment == BlockComment || IsWhiteText(p.text)
  {
    hide Lex, AllSpace, IsWhiteText;
    forall p | p in Lex(s) ensures AllSpace(p.text) <==> IsWhiteText(p.text) {
      WhiteExactly(p.text);
    }
  }
}
