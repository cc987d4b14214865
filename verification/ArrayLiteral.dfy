/**
  Array literals: the printer of src/types.rs:327-407 and the parser of
  src/types.rs:697-756 (section 8.15.6 of the PostgreSQL manual).
*/
module ArrayLiteral {
  import opened Wrappers
  import Seqs
  import Text

  datatype ArrayError = NotAnArray

  // ---------------------------------------------------------------------- printing

  function Lower(c: char): char { if 'A' <= c <= 'Z' then (c as int + 32) as char else c }

  /** `s.eq_ignore_ascii_case("null")` */
  predicate IsNullWord(s: string) {
    |s| == 4 && Lower(s[0]) == 'n' && Lower(s[1]) == 'u' && Lower(s[2]) == 'l' && Lower(s[3]) == 'l'
  }

  predicate IsSpecial(c: char) { Text.IsWhite(c) || c in {'{', '}', ',', '"', '\\'} }

  predicate NeedsQuotes(s: string) {
    s == "" || IsNullWord(s) || exists i :: 0 <= i < |s| && IsSpecial(s[i])
  }

  function Escape(s: string): string {
    if s == "" then ""
    else (if s[0] == '"' || s[0] == '\\' then "\\" else "") + s[..1] + Escape(s[1..])
  }

  function QuoteElement(s: string): (r: string)
    ensures r != ""
  {
    if NeedsQuotes(s) then "\"" + Escape(s) + "\"" else s
  }

  function Element(item: Option<string>): (r: string)
    ensures r != ""
  {
    match item
    case None => "NULL"
    case Some(s) => QuoteElement(s)
  }

  /** Elements between commas. */
  function Elements(items: seq<Option<string>>): string { Seqs.JoinWith(Seqs.Map(Element, items), ",") }

  function Literal(items: seq<Option<string>>): string { "{" + Elements(items) + "}" }

  /** One `push`: a comma unless it is the first, then the element. */
  lemma ElementsSnoc(items: seq<Option<string>>, item: Option<string>)
    ensures Elements(items + [item]) ==
      if items == [] then Element(item) else Elements(items) + "," + Element(item)
  {
    Seqs.MapSnoc(Element, items, item);
    Seqs.JoinSnoc(Seqs.Map(Element, items), ",", Element(item));
  }

  lemma ElementsCons(items: seq<Option<string>>)
    requires items != []
    ensures Elements(items) ==
      if |items| == 1 then Element(items[0]) else Element(items[0]) + "," + Elements(items[1..])
  {
    assert Seqs.Map(Element, items)[1..] == Seqs.Map(Element, items[1..]);
  }

  /** The loop of `quote_array_element`. */
  method QuoteArrayElement(s: string) returns (out: string)
    ensures out == QuoteElement(s)
  {
    if !NeedsQuotes(s) {
      return s;
    }
    out := "\"";
    assert s[0..] == s;
    for i := 0 to |s|
      invariant out + Escape(s[i..]) == "\"" + Escape(s)
    {
      ghost var before := out;
      assert s[i..][..1] == [s[i]] && s[i..][1..] == s[i + 1..];
      if s[i] == '"' || s[i] == '\\' {
        out := out + "\\";
      }
      out := out + [s[i]];
      var head := (if s[i] == '"' || s[i] == '\\' then "\\" else "") + [s[i]];
      assert out == before + head && Escape(s[i..]) == head + Escape(s[i + 1..]);
    }
    assert s[|s|..] == "" && out + "" == out;
    out := out + "\"";
  }

  /** The source's `array_to_text`, over elements already rendered as text. */
  method ArrayToText(items: seq<Option<string>>) returns (out: string)
    ensures out == Literal(items)
  {
    assert items[..0] == [] && Elements([]) == "";
    hide Elements, QuoteElement;
    out := "{";
    for i := 0 to |items|
      invariant out == "{" + Elements(items[..i])
    {
      ghost var done := Elements(items[..i]);
      ElementsSnoc(items[..i], items[i]);
      assert items[..i] + [items[i]] == items[..i + 1];
      if i > 0 {
        out := out + ",";
      }
      var text := "NULL";
      if items[i].Some? {
        text := QuoteArrayElement(items[i].value);
      }
      out := out + text;
      assert i > 0 ==> out == "{" + (done + "," + Element(items[i]));
    }
    assert items[..|items|] == items;
    out := out + "}";
  }

  // ----------------------------------------------------------------------- parsing

  function Finish(current: string, wasQuoted: bool): Option<string> {
    if !wasQuoted && IsNullWord(current) then None
    else if wasQuoted then Some(current)
    else Some(Text.Trim(current))
  }

  /** What the parser's loop makes of the rest `s` in a given state. */
  function ParseRest(s: string, current: string, quoted: bool, wasQuoted: bool): (r: seq<Option<string>>)
    ensures r != []
    decreases |s|
  {
    if s == "" then [Finish(current, wasQuoted)]
    else if s[0] == '"' then ParseRest(s[1..], current, !quoted, wasQuoted || !quoted)
    else if s[0] == '\\' && quoted then
      if |s| > 1 then ParseRest(s[2..], current + [s[1]], quoted, wasQuoted)
      else ParseRest("", current, quoted, wasQuoted)
    else if s[0] == ',' && !quoted then [Finish(current, wasQuoted)] + ParseRest(s[1..], "", quoted, false)
    else ParseRest(s[1..], current + [s[0]], quoted, wasQuoted)
  }

  function ParseLiteral(text: string): Result<seq<Option<string>>, ArrayError> {
    var t := Text.Trim(text);
    if |t| < 2 || t[0] != '{' || t[|t| - 1] != '}' then Err(NotAnArray)
    else if |t| == 2 then Ok([])
    else Ok(ParseRest(t[1..|t| - 1], "", false, false))
  }

  ghost predicate Parsing(inner: string, items: seq<Option<string>>, rest: string, current: string,
      quoted: bool, wasQuoted: bool) {
    items + ParseRest(rest, current, quoted, wasQuoted) == ParseRest(inner, "", false, false)
  }

  lemma ParsedItem(inner: string, items: seq<Option<string>>, rest: string, current: string, wasQuoted: bool)
    requires rest != "" && rest[0] == ','
    requires Parsing(inner, items, rest, current, false, wasQuoted)
    ensures Parsing(inner, items + [Finish(current, wasQuoted)], rest[1..], "", false, false)
  {
    Seqs.Advance(ParseRest(inner, "", false, false), items, ParseRest(rest, current, false, wasQuoted),
      [Finish(current, wasQuoted)], ParseRest(rest[1..], "", false, false));
  }

  /** The source's `parse_array_literal`. */
  method ParseArrayLiteral(text: string) returns (r: Result<seq<Option<string>>, ArrayError>)
    ensures r == ParseLiteral(text)
  {
    var t := Text.Trim(text);
    if |t| < 2 || t[0] != '{' || t[|t| - 1] != '}' {
      return Err(NotAnArray);
    }
    var inner := t[1..|t| - 1];
    if inner == "" {
      return Ok([]);
    }
    var items := ParseInner(inner);
    return Ok(items);
  }

  method ParseInner(inner: string) returns (items: seq<Option<string>>)
    ensures items == ParseRest(inner, "", false, false)
  {
    items := [];
    var current, quoted, wasQuoted := "", false, false;
    var chars := inner;
    while chars != ""
      invariant Parsing(inner, items, chars, current, quoted, wasQuoted)
      decreases |chars|
    {
      var c := chars[0];
      if c == '"' && !quoted {
        quoted, wasQuoted := true, true;
      } else if c == '"' {
        quoted := false;
      } else if c == '\\' && quoted {
        if |chars| > 1 {
          current := current + [chars[1]];
          assert chars[1..][1..] == chars[2..];
          chars := chars[1..];
        }
      } else if c == ',' && !quoted {
        ParsedItem(inner, items, chars, current, wasQuoted);
        items := items + [Finish(current, wasQuoted)];
        current, wasQuoted := "", false;
      } else {
        current := current + [c];
      }
      chars := chars[1..];
    }
    items := items + [Finish(current, wasQuoted)];
  }

  // -------------------------------------------------------------------- round trip

  lemma {:induction false} ParsePlain(s: string, rest: string, current: string)
    requires forall i :: 0 <= i < |s| ==> s[i] != '"' && s[i] != ','
    ensures ParseRest(s + rest, current, false, false) == ParseRest(rest, current + s, false, false)
  {
    if s == "" {
      assert s + rest == rest && current + s == current;
    } else {
      ParsePlain(s[1..], rest, current + [s[0]]);
      assert (s + rest)[1..] == s[1..] + rest;
      assert current + [s[0]] + s[1..] == current + s;
    }
  }

  lemma {:induction false} ParseEscaped(s: string, rest: string, current: string)
    ensures ParseRest(Escape(s) + rest, current, true, true) == ParseRest(rest, current + s, true, true)
  {
    var v := Escape(s) + rest;
    if s == "" {
      assert v == rest && current + s == current;
    } else {
      ParseEscaped(s[1..], rest, current + [s[0]]);
      assert current + [s[0]] + s[1..] == current + s;
      if s[0] == '"' || s[0] == '\\' {
        assert v[2..] == Escape(s[1..]) + rest && v[0] == '\\' && v[1] == s[0];
      } else {
        assert v[1..] == Escape(s[1..]) + rest && v[0] == s[0];
      }
    }
  }

  /** An element printed and parsed is itself, whatever follows it. */
  lemma ParseElement(item: Option<string>, rest: string)
    requires rest == "" || rest[0] == ','
    ensures ParseRest(Element(item) + rest, "", false, false) ==
      [item] + if rest == "" then [] else ParseRest(rest[1..], "", false, false)
  {
    match item {
      case None =>
        ParsePlain("NULL", rest, "");
        assert "" + "NULL" == "NULL";
      case Some(s) =>
        if NeedsQuotes(s) {
          ParseQuoted(s, rest);
        } else {
          assert forall i :: 0 <= i < |s| ==> !IsSpecial(s[i]);
          ParsePlain(s, rest, "");
          assert "" + s == s;
          Text.TrimNothing(s);
        }
    }
  }

  lemma ParseQuoted(s: string, rest: string)
    requires rest == "" || rest[0] == ','
    ensures ParseRest("\"" + Escape(s) + "\"" + rest, "", false, false) ==
      [Some(s)] + if rest == "" then [] else ParseRest(rest[1..], "", false, false)
  {
    var close := "\"" + rest;
    var v := "\"" + Escape(s) + "\"" + rest;
    assert v[1..] == Escape(s) + close;
    ParseEscaped(s, close, "");
    assert "" + s == s && close[1..] == rest;
  }

  lemma {:induction false} ParseElements(items: seq<Option<string>>)
    requires items != []
    ensures ParseRest(Elements(items), "", false, false) == items
  {
    ElementsCons(items);
    if |items| == 1 {
      ParseElement(items[0], "");
      assert Element(items[0]) + "" == Element(items[0]);
    } else {
      var rest := "," + Elements(items[1..]);
      ParseElements(items[1..]);
      ParseElement(items[0], rest);
      assert rest[1..] == Elements(items[1..]);
      assert Elements(items) == Element(items[0]) + rest;
    }
  }

  lemma ElementsNotEmpty(items: seq<Option<string>>)
    ensures Elements(items) == "" <==> items == []
  {
    if items != [] {
      ElementsCons(items);
    }
  }

  /** Parsing a printed literal gives back the list, for every list of optional
      strings: empty strings, the string `NULL`, quotes, backslashes, commas,
      braces and white space included. */
  lemma LiteralRoundTrip(items: seq<Option<string>>)
    ensures ParseLiteral(Literal(items)) == Ok(items)
  {
    var t := Literal(items);
    Text.TrimNothing(t);
    ElementsNotEmpty(items);
    assert t[1..|t| - 1] == Elements(items);
    if items != [] {
      ParseElements(items);
    }
  }

  // ------------------------------------------------------------------- other literals

  /** A text is refused exactly if it is not in braces, white space around them apart. */
  lemma RefusedExactly(text: string)
    ensures ParseLiteral(text).Err? <==>
      var t := Text.Trim(text); !(|t| >= 2 && t[0] == '{' && t[|t| - 1] == '}')
  {
    hide Text.Trim, ParseRest;
  }

  predicate NoQuote(s: string) { forall i :: 0 <= i < |s| ==> s[i] != '"' && s[i] != ',' }

  lemma {:induction false} ParseUnquoted(s: string, rest: string, current: string)
    requires NoQuote(s)
    ensures ParseRest(s + rest, current, false, false) == ParseRest(rest, current + s, false, false)
    decreases |s|
  {
    if s == "" {
      assert s + rest == rest && current + s == current;
    } else {
      ParseUnquoted(s[1..], rest, current + [s[0]]);
      assert (s + rest)[1..] == s[1..] + rest && (s + rest)[0] == s[0];
      assert (current + [s[0]]) + s[1..] == current + s;
    }
  }

  /** An element without quotes is the word NULL, of any case, or text, white space around
      it dropped; a comma ends it. */
  lemma UnquotedElement(s: string, rest: string)
    requires NoQuote(s)
    ensures var item :=
        if |s| == 4 && s[0] in {'n', 'N'} && s[1] in {'u', 'U'} && s[2] in {'l', 'L'} && s[3] in {'l', 'L'} then None
        else Some(Text.Trim(s));
      && ParseRest(s, "", false, false) == [item]
      && ParseRest(s + ("," + rest), "", false, false) == [item] + ParseRest(rest, "", false, false)
  {
    hide Text.Trim;
    ParseUnquoted(s, "", "");
    ParseUnquoted(s, "," + rest, "");
    assert s + "" == s && "" + s == s && ("," + rest)[1..] == rest;
  }

  /** Which elements are written without quotes: those that are not empty, not the word
      NULL of any case, and hold no white space, brace, comma, quote or backslash. */
  lemma QuotedExactly(s: string)
    ensures QuoteElement(s) == s <==>
      && s != ""
      && !(|s| == 4 && s[0] in {'n', 'N'} && s[1] in {'u', 'U'} && s[2] in {'l', 'L'} && s[3] in {'l', 'L'})
      && forall i :: 0 <= i < |s| ==> !Text.IsWhite(s[i]) && s[i] !in {'{', '}', ',', '"', '\\'}
    ensures QuoteElement(s) != s ==> QuoteElement(s) == "\"" + Escape(s) + "\""
  {
    EscapeGrows(s);
  }

  lemma {:induction false} EscapeGrows(s: string)
    ensures |Escape(s)| >= |s|
  {
    if s != "" {
      EscapeGrows(s[1..]);
    }
  }

  /** A quote and a backslash get a backslash in front, and nothing else does. */
  lemma {:induction false} EscapeExactly(a: string, c: char)
    ensures Escape(a + [c]) == Escape(a) + (if c == '"' || c == '\\' then ['\\', c] else [c])
    ensures Escape("") == ""
  {
    if a == "" {
      assert a + [c] == [c] && [c][1..] == "" && [c][..1] == [c];
    } else {
      EscapeExactly(a[1..], c);
      assert (a + [c])[1..] == a[1..] + [c] && (a + [c])[0] == a[0] && (a + [c])[..1] == a[..1];
    }
  }
}
