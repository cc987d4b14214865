/**
  Server errors that the Data API flattened into one line, src/dataapi.rs:379-445:
  `ERROR: <message>; Detail: ...; Hint: ...; Position: N; SQLState: XXXXX`.

  The message may itself hold `; `, so the fields are peeled off from the right.
*/
module DbError {
  import opened Wrappers
  import Text

  datatype Name = SqlState | Position | Hint | Detail | Where

  const SEVERITIES: set<string> := {"ERROR", "FATAL", "PANIC", "WARNING", "NOTICE", "DEBUG", "INFO", "LOG"}

  datatype DbError = DbError(
    severity: string, code: string, message: string,
    position: Option<string>, hint: Option<string>, detail: Option<string>, context: Option<string>)

  function Prefix(n: Name): string {
    match n
    case SqlState => "SQLState: "
    case Position => "Position: "
    case Hint => "Hint: "
    case Detail => "Detail: "
    case Where => "Where: "
  }

  // -------------------------------------------------------------- finding the pieces

  predicate SepAt(s: string, i: int) { 0 <= i && i + 1 < |s| && s[i] == ';' && s[i + 1] == ' ' }

  /** `rfind("; ")` */
  function LastSep(s: string): (at: Option<nat>)
    ensures at.Some? ==> SepAt(s, at.value)
  {
    if |s| < 2 then None
    else if SepAt(s, |s| - 2) then Some(|s| - 2)
    else LastSep(s[..|s| - 1])
  }

  /** `trim_start_matches("; ")` */
  function StripSeps(s: string): string { if SepAt(s, 0) then StripSeps(s[2..]) else s }

  /** `trim_end_matches(';')` */
  function StripSemis(s: string): (r: string)
    ensures |r| <= |s|
    ensures r == s <==> s == "" || s[|s| - 1] != ';'
  {
    if s != "" && s[|s| - 1] == ';' then StripSemis(s[..|s| - 1]) else s
  }

  function FieldAfter(s: string, at: nat): Option<(Name, string)>
    requires at <= |s|
  {
    FieldOf(StripSemis(StripSeps(s[at..])))
  }

  function FieldOf(field: string): Option<(Name, string)> {
    if Prefix(SqlState) <= field then Some((SqlState, Text.Trim(field[|Prefix(SqlState)|..])))
    else if Prefix(Position) <= field then Some((Position, Text.Trim(field[|Prefix(Position)|..])))
    else if Prefix(Hint) <= field then Some((Hint, Text.Trim(field[|Prefix(Hint)|..])))
    else if Prefix(Detail) <= field then Some((Detail, Text.Trim(field[|Prefix(Detail)|..])))
    else if Prefix(Where) <= field then Some((Where, Text.Trim(field[|Prefix(Where)|..])))
    else None
  }

  /** `split_once(": ")`: where the first `: ` is. */
  function FirstColon(s: string): (at: Option<nat>)
    ensures at.Some? ==> at.value + 2 <= |s|
  {
    if |s| < 2 then None
    else if s[0] == ':' && s[1] == ' ' then Some(0)
    else match FirstColon(s[1..]) case Some(k) => Some(k + 1) case None => None
  }

  // ------------------------------------------------------------------- the parser

  /** What is left, and the fields found, once no known field is at the end. */
  function Peel(rest: string, got: map<Name, string>): (string, map<Name, string>)
    decreases |rest|
  {
    match LastSep(rest)
    case None => (rest, got)
    case Some(at) =>
      match FieldAfter(rest, at)
      case None => (rest, got)
      case Some(field) => Peel(rest[..at], got[field.0 := field.1])
  }

  function Lookup(got: map<Name, string>, n: Name): Option<string> { if n in got then Some(got[n]) else None }

  function Severity(rest: string): (string, string) {
    match FirstColon(rest)
    case Some(k) => if rest[..k] in SEVERITIES then (rest[..k], rest[k + 2..]) else ("ERROR", rest)
    case None => ("ERROR", rest)
  }

  function Assemble(severity: string, message: string, got: map<Name, string>): DbError {
    DbError(severity, if SqlState in got then got[SqlState] else "XX000", message,
      Lookup(got, Position), Lookup(got, Hint), Lookup(got, Detail), Lookup(got, Where))
  }

  function Parse(raw: string): DbError {
    var (rest, got) := Peel(Text.Trim(raw), map[]);
    var (severity, message) := Severity(rest);
    Assemble(severity, StripSemis(message), got)
  }

  /** The source's `parse_db_error`. */
  method ParseDbError(raw: string) returns (e: DbError)
    ensures e == Parse(raw)
  {
    var rest, got := Text.Trim(raw), map[];
    var matched := true;
    while matched
      invariant Peel(rest, got) == Peel(Text.Trim(raw), map[])
      invariant !matched ==> Peel(rest, got) == (rest, got)
      decreases |rest|, matched
    {
      var at := LastSep(rest);
      if at.None? {
        break;
      }
      var field := FieldAfter(rest, at.value);
      match field {
        case None =>
          matched := false;
        case Some(f) =>
          got := got[f.0 := f.1];
          rest := rest[..at.value];
      }
    }
    var (severity, message) := Severity(rest);
    return Assemble(severity, StripSemis(message), got);
  }

  // ------------------------------------------------------------------- the renderer

  type Field = (Name, string)

  function FieldText(f: Field): string { Prefix(f.0) + f.1 }

  function FieldsText(fs: seq<Field>): string {
    if fs == [] then "" else FieldsText(fs[..|fs| - 1]) + "; " + FieldText(fs[|fs| - 1])
  }

  /** How the service writes an error out. */
  function Render(severity: string, message: string, fs: seq<Field>): string {
    severity + ": " + message + FieldsText(fs)
  }

  /** The fields as a map; of two with the same name the first one written counts. */
  function Collected(got: map<Name, string>, fs: seq<Field>): map<Name, string>
    decreases |fs|
  {
    if fs == [] then got
    else Collected(got[fs[|fs| - 1].0 := fs[|fs| - 1].1], fs[..|fs| - 1])
  }

  predicate NoSep(s: string) { forall i :: 0 <= i < |s| ==> !SepAt(s, i) }

  /** A trimmed value that holds no separator. */
  predicate TidyValue(v: string) {
    NoSep(v) && (v != "" ==> !Text.IsWhite(v[0]) && !Text.IsWhite(v[|v| - 1]))
  }

  /** ... and does not end in a separator's semicolon. */
  predicate PlainValue(v: string) { TidyValue(v) && (v != "" ==> v[|v| - 1] != ';') }

  predicate PlainFields(fs: seq<Field>) { forall i :: 0 <= i < |fs| ==> PlainValue(fs[i].1) }

  // -------------------------------------------------------------- peeling one field

  lemma {:induction false} LastSepAt(a: string, x: string)
    requires NoSep(x)
    ensures LastSep(a + "; " + x) == Some(|a|)
    decreases |x|
  {
    var s := a + "; " + x;
    if x != "" {
      var n := |x| - 1;
      assert s[..|s| - 1] == a + "; " + x[..n];
      assert !SepAt(s, |s| - 2) by {
        if n > 0 {
          assert !SepAt(x, n - 1);
        }
      }
      forall i | 0 <= i < n ensures !SepAt(x[..n], i) {
        assert !SepAt(x, i);
      }
      LastSepAt(a, x[..n]);
    }
  }

  lemma PrefixPlain(n: Name)
    ensures Prefix(n) != "" && NoSemi(Prefix(n))
  {
  }

  lemma FieldTextPlain(f: Field)
    requires TidyValue(f.1)
    ensures NoSep(FieldText(f)) && StripSemis(FieldText(f)) == Prefix(f.0) + StripSemis(f.1)
  {
    hide Prefix, Text.IsWhite;
    PrefixPlain(f.0);
    var t, n := FieldText(f), |Prefix(f.0)|;
    forall i | 0 <= i < |t| ensures !SepAt(t, i) {
      if i >= n {
        assert !SepAt(f.1, i - n);
      }
    }
    StripBehind(Prefix(f.0), f.1);
  }

  lemma {:induction false} StripBehind(a: string, b: string)
    requires a != "" && a[|a| - 1] != ';'
    ensures StripSemis(a + b) == a + StripSemis(b)
  {
    if b == "" {
      assert a + b == a;
    } else if b[|b| - 1] == ';' {
      StripBehind(a, b[..|b| - 1]);
      assert (a + b)[..|a + b| - 1] == a + b[..|b| - 1];
    }
  }

  lemma FieldRead(n: Name, v: string)
    ensures FieldOf(Prefix(n) + v) == Some((n, Text.Trim(v)))
  {
    assert (Prefix(n) + v)[|Prefix(n)|..] == v;
    OnlyItsPrefix((n, v));
  }

  lemma OnlyItsPrefix(f: Field)
    ensures forall n: Name :: Prefix(n) <= FieldText(f) <==> n == f.0
  {
    forall n: Name ensures Prefix(n) <= FieldText(f) <==> n == f.0 {
      assert FieldText(f)[0] == Prefix(f.0)[0];
    }
  }

  lemma StripOneSep(x: string)
    requires NoSep(x)
    ensures StripSeps("; " + x) == x
  {
    assert ("; " + x)[2..] == x;
    assert x != "" ==> !SepAt(x, 0);
  }

  /** What is read back of a value: its final semicolons are taken for a separator's. */
  function ReadValue(v: string): string { Text.Trim(StripSemis(v)) }

  /** The last field written is the first one peeled. */
  lemma PeelOne(base: string, f: Field, got: map<Name, string>)
    requires TidyValue(f.1)
    ensures Peel(base + "; " + FieldText(f), got) == Peel(base, got[f.0 := ReadValue(f.1)])
  {
    hide Prefix, FieldOf, Text.Trim, TidyValue;
    var x := FieldText(f);
    var s := base + "; " + x;
    FieldTextPlain(f);
    LastSepAt(base, x);
    assert s[|base|..] == "; " + x && s[..|base|] == base;
    StripOneSep(x);
    FieldRead(f.0, StripSemis(f.1));
  }

  function ReadFields(fs: seq<Field>): (r: seq<Field>)
    ensures |r| == |fs| && forall i :: 0 <= i < |r| ==> r[i] == (fs[i].0, ReadValue(fs[i].1))
  {
    seq(|fs|, i requires 0 <= i < |fs| => (fs[i].0, ReadValue(fs[i].1)))
  }

  /** Trimmed values without a separator are read one by one, whatever stands in front. */
  lemma {:induction false} PeelFields(base: string, fs: seq<Field>, got: map<Name, string>)
    requires forall i :: 0 <= i < |fs| ==> TidyValue(fs[i].1)
    ensures Peel(base + FieldsText(fs), got) == Peel(base, Collected(got, ReadFields(fs)))
    decreases |fs|
  {
    hide Peel, TidyValue, FieldText, ReadValue;
    if fs == [] {
      assert base + "" == base;
    } else {
      var n := |fs| - 1;
      assert base + FieldsText(fs) == (base + FieldsText(fs[..n])) + "; " + FieldText(fs[n]);
      PeelOne(base + FieldsText(fs[..n]), fs[n], got);
      PeelFields(base, fs[..n], got[fs[n].0 := ReadValue(fs[n].1)]);
      assert ReadFields(fs)[..n] == ReadFields(fs[..n]);
    }
  }

  lemma PlainReadsSame(fs: seq<Field>)
    requires PlainFields(fs)
    ensures ReadFields(fs) == fs
  {
    forall i | 0 <= i < |fs| ensures ReadValue(fs[i].1) == fs[i].1 {
      Text.TrimNothing(fs[i].1);
    }
  }

  // --------------------------------------------------------------------- the message

  /** Nothing at the end of the message reads as a field, nor as a separator's semicolon. */
  predicate PlainMessage(message: string) {
    && (message != "" ==> message[|message| - 1] != ';')
    && (LastSep(message).Some? ==> FieldAfter(message, LastSep(message).value).None?)
  }

  predicate NoSemi(s: string) { forall i :: 0 <= i < |s| ==> s[i] != ';' }

  lemma {:induction false} LastSepShift(pre: string, s: string)
    requires NoSemi(pre)
    ensures LastSep(pre + s) == match LastSep(s) case Some(k) => Some(|pre| + k) case None => None
    decreases |s|
  {
    var t := pre + s;
    if s == "" {
      NoSemiNoSep(pre);
      assert t == pre;
    } else {
      var n := |s| - 1;
      assert t[..|t| - 1] == pre + s[..n];
      if |t| >= 2 {
        assert SepAt(t, |t| - 2) <==> SepAt(s, n - 1);
      }
      if |s| >= 2 {
        LastSepShift(pre, s[..n]);
      } else {
        assert pre + s[..n] == pre;
        NoSemiNoSep(pre);
      }
    }
  }

  lemma {:induction false} NoSemiNoSep(s: string)
    requires NoSemi(s)
    ensures LastSep(s) == None
  {
    if |s| >= 2 {
      NoSemiNoSep(s[..|s| - 1]);
    }
  }

  /** Peeling never gets past the severity, and takes something off the message unless
      no field is at its end. */
  lemma {:induction false} PeelMessage(pre: string, message: string, got: map<Name, string>) returns (k: nat)
    requires NoSemi(pre)
    ensures k <= |message| && Peel(pre + message, got).0 == pre + message[..k]
    ensures k == |message| <==> (LastSep(message).Some? ==> FieldAfter(message, LastSep(message).value).None?)
    ensures k == |message| ==> Peel(pre + message, got) == (pre + message, got)
    decreases |message|
  {
    hide LastSep, FieldAfter;
    LastSepShift(pre, message);
    k := |message|;
    assert message[..k] == message;
    match LastSep(message) {
      case None =>
      case Some(at) =>
        FieldAfterShift(pre, message, at);
        match FieldAfter(message, at) {
          case None =>
          case Some(f) =>
            assert (pre + message)[..|pre| + at] == pre + message[..at];
            k := PeelMessage(pre, message[..at], got[f.0 := f.1]);
            assert message[..at][..k] == message[..k];
        }
    }
  }

  lemma FieldAfterShift(pre: string, s: string, at: nat)
    requires at <= |s|
    ensures FieldAfter(pre + s, |pre| + at) == FieldAfter(s, at)
  {
    assert (pre + s)[|pre| + at..] == s[at..];
  }

  lemma {:induction false} FirstColonAt(a: string, b: string)
    requires forall i :: 0 <= i < |a| ==> a[i] != ':'
    ensures FirstColon(a + ": " + b) == Some(|a|)
  {
    var s := a + ": " + b;
    if a != "" {
      assert s[1..] == a[1..] + ": " + b;
      FirstColonAt(a[1..], b);
    }
  }

  predicate PlainWord(s: string) { s != "" && forall i :: 0 <= i < |s| ==> 'A' <= s[i] <= 'Z' }

  lemma SeverityIsWord(severity: string)
    requires severity in SEVERITIES
    ensures PlainWord(severity)
  {
  }

  lemma SeverityRead(severity: string, message: string)
    requires severity in SEVERITIES
    ensures Severity(severity + ": " + message) == (severity, message)
  {
    SeverityIsWord(severity);
    FirstColonAt(severity, message);
    var s := severity + ": " + message;
    assert s[..|severity|] == severity && s[|severity| + 2..] == message;
  }

  // ------------------------------------------------------------ the parse as a whole

  lemma RenderedIsTrimmed(severity: string, message: string, fs: seq<Field>)
    requires severity in SEVERITIES
    requires fs != [] && fs[|fs| - 1].1 != "" && TidyValue(fs[|fs| - 1].1)
    ensures Text.Trim(Render(severity, message, fs)) == Render(severity, message, fs)
  {
    var s, v := Render(severity, message, fs), fs[|fs| - 1].1;
    SeverityIsWord(severity);
    assert s[0] == severity[0];
    assert FieldsText(fs)[|FieldsText(fs)| - 1] == v[|v| - 1];
    assert s[|s| - 1] == v[|v| - 1];
    Text.TrimNothing(s);
  }

  /** What is left to read of a message behind its severity, once the fields are off:
      the message itself exactly if no field is at its end, and less otherwise. */
  lemma MessageRead(severity: string, message: string, got: map<Name, string>) returns (k: nat)
    requires severity in SEVERITIES
    ensures k <= |message|
    ensures Severity(Peel(severity + ": " + message, got).0) == (severity, message[..k])
    ensures StripSemis(message[..k]) == message <==> PlainMessage(message)
    ensures StripSemis(message[..k]) == message ==> Peel(severity + ": " + message, got).1 == got
  {
    hide Peel, LastSep, FieldAfter, Severity;
    var pre := severity + ": ";
    SeverityIsWord(severity);
    assert NoSemi(pre);
    k := PeelMessage(pre, message, got);
    SeverityRead(severity, message[..k]);
    assert k == |message| ==> message[..k] == message;
  }

  lemma ParsedTidy(severity: string, message: string, fs: seq<Field>) returns (k: nat)
    requires severity in SEVERITIES
    requires forall i :: 0 <= i < |fs| ==> TidyValue(fs[i].1)
    requires fs != [] && fs[|fs| - 1].1 != ""
    ensures k <= |message|
    ensures var got := Peel(severity + ": " + message, Collected(map[], ReadFields(fs))).1;
      Parse(Render(severity, message, fs)) == Assemble(severity, StripSemis(message[..k]), got)
    ensures StripSemis(message[..k]) == message <==> PlainMessage(message)
    ensures StripSemis(message[..k]) == message ==>
      Peel(severity + ": " + message, Collected(map[], ReadFields(fs))).1 == Collected(map[], ReadFields(fs))
  {
    hide Peel, Severity, FieldsText, Collected, Text.Trim, TidyValue, PlainMessage;
    RenderedIsTrimmed(severity, message, fs);
    PeelFields(severity + ": " + message, fs, map[]);
    k := MessageRead(severity, message, Collected(map[], ReadFields(fs)));
  }

  // ------------------------------------------------- what can be read back at all

  lemma {:induction false} LastSepIsLast(s: string, i: nat)
    requires SepAt(s, i)
    ensures LastSep(s).Some? && i <= LastSep(s).value
  {
    if !SepAt(s, |s| - 2) {
      assert SepAt(s[..|s| - 1], i);
      LastSepIsLast(s[..|s| - 1], i);
    }
  }

  lemma {:induction false} StripIsPrefix(s: string)
    ensures StripSemis(s) <= s
  {
    if s != "" && s[|s| - 1] == ';' {
      StripIsPrefix(s[..|s| - 1]);
    }
  }

  lemma PartHasNoSep(s: string, a: nat, b: nat)
    requires a <= b <= |s| && NoSep(s)
    ensures NoSep(s[a..b])
  {
    forall i | 0 <= i < b - a ensures !SepAt(s[a..b], i) {
      assert !SepAt(s, a + i);
    }
  }

  lemma NoSepAfterLast(s: string, at: nat)
    requires LastSep(s) == Some(at)
    ensures NoSep(s[at + 2..])
  {
    hide LastSep;
    var x := s[at + 2..];
    forall i | 0 <= i < |x| ensures !SepAt(x, i) {
      if SepAt(x, i) {
        assert SepAt(s, at + 2 + i);
        LastSepIsLast(s, at + 2 + i);
      }
    }
  }

  lemma FieldIsTidy(field: string)
    requires NoSep(field) && FieldOf(field).Some?
    ensures TidyValue(FieldOf(field).value.1)
  {
    hide Text.Trim, Text.IsWhite;
    var n := |Prefix(FieldOf(field).value.0)|;
    PartHasNoSep(field, n, |field|);
    assert field[n..|field|] == field[n..];
    var a, b := Text.TrimIsPart(field[n..]);
    PartHasNoSep(field[n..], a, b);
  }

  /** A value read off the end of a text is trimmed and holds no separator. */
  lemma ReadIsTidy(s: string)
    requires LastSep(s).Some? && FieldAfter(s, LastSep(s).value).Some?
    ensures TidyValue(FieldAfter(s, LastSep(s).value).value.1)
  {
    hide LastSep, FieldOf, StripSemis, TidyValue;
    var at := LastSep(s).value;
    var x := s[at + 2..];
    NoSepAfterLast(s, at);
    assert s[at..] == "; " + x;
    StripOneSep(x);
    StripIsPrefix(x);
    PartHasNoSep(x, 0, |StripSemis(x)|);
    assert StripSemis(x) == x[0..|StripSemis(x)|];
    FieldIsTidy(StripSemis(x));
  }

  ghost predicate AllTidy(got: map<Name, string>) { forall n :: n in got ==> TidyValue(got[n]) }

  lemma {:induction false} PeeledIsTidy(rest: string, got: map<Name, string>)
    requires AllTidy(got)
    ensures AllTidy(Peel(rest, got).1)
    decreases |rest|
  {
    hide TidyValue, FieldAfter, LastSep;
    match LastSep(rest) {
      case None =>
      case Some(at) =>
        match FieldAfter(rest, at) {
          case None =>
          case Some(f) =>
            ReadIsTidy(rest);
            PeeledIsTidy(rest[..at], got[f.0 := f.1]);
        }
    }
  }

  predicate Distinct(fs: seq<Field>) { forall i, j :: 0 <= i < j < |fs| ==> fs[i].0 != fs[j].0 }

  /** Fields that came back were trimmed and held no separator. */
  lemma ReturnedIsTidy(raw: string, severity: string, message: string, fs: seq<Field>, i: nat)
    requires Distinct(fs) && i < |fs|
    requires Parse(raw) == Assemble(severity, message, Collected(map[], fs))
    ensures TidyValue(fs[i].1)
  {
    hide Peel, Severity, Collected, Text.Trim, StripSemis, TidyValue;
    var got := Peel(Text.Trim(raw), map[]).1;
    PeeledIsTidy(Text.Trim(raw), map[]);
    CollectedIs(map[], fs, fs[i].0);
    var (severity1, message1) := Severity(Peel(Text.Trim(raw), map[]).0);
    AssembledFrom(severity1, StripSemis(message1), got, severity, message, Collected(map[], fs), fs[i].0);
    TidyFound(got, fs[i].0, fs[i].1);
  }

  /** Two errors with the same contents have the same fields, but for a code that only one
      of them was given. */
  lemma AssembledFrom(severity: string, message: string, got: map<Name, string>,
      severity2: string, message2: string, got2: map<Name, string>, n: Name)
    requires Assemble(severity, message, got) == Assemble(severity2, message2, got2)
    requires n in got2
    ensures (n in got && got[n] == got2[n]) || got2[n] == "XX000"
  {
  }

  lemma TidyFound(got: map<Name, string>, n: Name, v: string)
    requires AllTidy(got)
    requires (n in got && got[n] == v) || v == "XX000"
    ensures TidyValue(v)
  {
  }

  /** A tidy value that does end in a semicolon comes back without it. */
  lemma NotPlainIsLost(v: string)
    requires TidyValue(v) && !PlainValue(v)
    ensures ReadValue(v) != v
  {
    var a, b := Text.TrimIsPart(StripSemis(v));
  }

  lemma SomeFieldLost(fs: seq<Field>, severity: string, message: string)
    requires Distinct(fs) && forall i :: 0 <= i < |fs| ==> TidyValue(fs[i].1)
    requires !PlainFields(fs)
    ensures Assemble(severity, message, Collected(map[], ReadFields(fs))) != Assemble(severity, message,
        Collected(map[], fs))
  {
    hide TidyValue, ReadValue;
    var i :| 0 <= i < |fs| && !PlainValue(fs[i].1);
    NotPlainIsLost(fs[i].1);
    CollectedIs(map[], fs, fs[i].0);
    CollectedIs(map[], ReadFields(fs), fs[i].0);
    assert ReadFields(fs)[i].0 == fs[i].0;
  }

  // -------------------------------------------------------------------- round trip

  /** Parsing a rendered error whose fields are all different returns exactly its
      severity, message and fields if, and only if, the end of the message cannot be
      taken for a field or a separator, and every value is trimmed, holds no `; ` and does
      not end in a semicolon. */
  lemma RoundTrip(severity: string, message: string, fs: seq<Field>)
    requires severity in SEVERITIES && Distinct(fs)
    requires fs != [] && fs[|fs| - 1].1 != ""
    ensures Parse(Render(severity, message, fs)) == Assemble(severity, message, Collected(map[], fs))
      <==> PlainMessage(message) && PlainFields(fs)
  {
    hide Parse, Render, PlainMessage, TidyValue, Collected;
    if forall i :: 0 <= i < |fs| ==> TidyValue(fs[i].1) {
      var k := ParsedTidy(severity, message, fs);
      if PlainFields(fs) {
        PlainReadsSame(fs);
      } else {
        SomeFieldLost(fs, severity, message);
      }
    } else if Parse(Render(severity, message, fs)) == Assemble(severity, message, Collected(map[], fs)) {
      forall i | 0 <= i < |fs| ensures TidyValue(fs[i].1) {
        ReturnedIsTidy(Render(severity, message, fs), severity, message, fs, i);
      }
    }
  }

  /** When no field is written twice, each one is read back with its own value, and no
      other is made up. */
  lemma {:induction false} CollectedIs(got: map<Name, string>, fs: seq<Field>, n: Name)
    requires forall i, j :: 0 <= i < j < |fs| ==> fs[i].0 != fs[j].0
    ensures forall i :: 0 <= i < |fs| && fs[i].0 == n ==> Lookup(Collected(got, fs), n) == Some(fs[i].1)
    ensures (forall i :: 0 <= i < |fs| ==> fs[i].0 != n) ==> Lookup(Collected(got, fs), n) == Lookup(got, n)
    decreases |fs|
  {
    if fs != [] {
      var m := |fs| - 1;
      CollectedIs(got[fs[m].0 := fs[m].1], fs[..m], n);
      if fs[m].0 == n {
        assert forall i :: 0 <= i < m ==> fs[..m][i].0 != n;
      }
    }
  }

  lemma FieldsSnoc(fs: seq<Field>, n: Name, v: string, sep: string)
    requires sep == "; " + Prefix(n)
    ensures FieldsText(fs + [(n, v)]) == FieldsText(fs) + (sep + v)
  {
    hide Prefix;
    assert (fs + [(n, v)])[..|fs|] == fs;
    assert FieldsText(fs) + "; " + (Prefix(n) + v) == FieldsText(fs) + (("; " + Prefix(n)) + v);
  }

  /** The form the service uses, spelled out. */
  lemma RenderedForm(severity: string, message: string, detail: string, hint: string, position: string, code: string)
    ensures Render(severity, message, [(Detail, detail)] + [(Hint, hint)] + [(Position, position)] + [(SqlState, code)])
      == severity + ": " + message
        + (("; Detail: " + detail) + ("; Hint: " + hint) + ("; Position: " + position) + ("; SQLState: " + code))
  {
    hide FieldsText;
    assert [(Detail, detail)] == [] + [(Detail, detail)];
    FieldsOfNone();
    FieldsSnoc([], Detail, detail, "; Detail: ");
    FieldsSnoc([(Detail, detail)], Hint, hint, "; Hint: ");
    FieldsSnoc([(Detail, detail)] + [(Hint, hint)], Position, position, "; Position: ");
    FieldsSnoc([(Detail, detail)] + [(Hint, hint)] + [(Position, position)], SqlState, code, "; SQLState: ");
  }

  lemma FieldsOfNone()
    ensures FieldsText([]) == "" && forall s: string :: "" + s == s
  {
  }

  // -------------------------------------------------------- what is lost, on examples

  lemma TwoFields(message: string, n: Name, v: string, code: string)
    ensures Render("ERROR", message, [(n, v), (SqlState, code)])
      == Render("ERROR", message + ("; " + FieldText((n, v))), [(SqlState, code)])
  {
    hide FieldText;
    var fs := [(n, v), (SqlState, code)];
    assert fs[..1] == [(n, v)] && [(n, v)][..0] == [] && [(SqlState, code)][..0] == [];
    assert FieldsText([(n, v)]) == "" + "; " + FieldText((n, v)) == "; " + FieldText((n, v));
    assert FieldsText([(SqlState, code)]) == "" + "; " + FieldText((SqlState, code))
      == "; " + FieldText((SqlState, code));
  }

  lemma CollectedFew(n: Name, v: string, code: string)
    requires n != SqlState
    ensures Collected(map[], [(SqlState, code)]) == map[SqlState := code]
    ensures Collected(map[], [(n, v), (SqlState, code)]) == map[SqlState := code, n := v]
  {
    assert [(SqlState, code)][..0] == [];
    assert [(n, v), (SqlState, code)][..1] == [(n, v)] && [(n, v)][..0] == [];
    assert Collected(map[SqlState := code], [(n, v)]) == Collected(map[SqlState := code][n := v], []);
  }

  lemma TailNoField(a: string, x: string)
    requires NoSep(x) && x != "" && x[|x| - 1] != ';' && FieldOf(x).None?
    ensures PlainMessage(a + "; " + x)
  {
    hide FieldOf;
    LastSepAt(a, x);
    assert (a + "; " + x)[|a|..] == "; " + x;
    StripOneSep(x);
  }

  /** A detail that holds a separator is not read as one: all of it is returned as part
      of the message. */
  lemma DetailLost(message: string, detail: string, tail: string, code: string)
    requires NoSep(tail) && tail != "" && tail[|tail| - 1] != ';' && FieldOf(tail).None?
    requires PlainValue(code) && code != ""
    ensures Parse(Render("ERROR", message, [(Detail, detail + "; " + tail), (SqlState, code)]))
      == Assemble("ERROR", message + ("; Detail: " + detail + "; " + tail), map[SqlState := code])
  {
    hide Parse, Render, Collected, PlainMessage, PlainValue, FieldOf;
    var v := detail + "; " + tail;
    var whole := message + ("; Detail: " + detail + "; " + tail);
    TwoFields(message, Detail, v, code);
    assert "; " + FieldText((Detail, v)) == "; Detail: " + detail + "; " + tail;
    assert whole == (message + ("; Detail: " + detail)) + "; " + tail;
    TailNoField(message + ("; Detail: " + detail), tail);
    CollectedFew(Detail, v, code);
    RoundTrip("ERROR", whole, [(SqlState, code)]);
  }

  /** The same on the text `dup; Detail: (a; b); SQLState: 23505`. */
  lemma DetailLostExample()
    ensures Parse(Render("ERROR", "dup", [(Detail, "(a; b)"), (SqlState, "23505")])).detail == None
  {
    assert "(a" + "; " + "b)" == "(a; b)";
    assert FieldOf("b)").None?;
    DetailLost("dup", "(a", "b)", "23505");
  }

  /** A message whose last piece reads as a field loses it to that field. */
  lemma MessageCut(message: string, n: Name, v: string, code: string)
    requires PlainMessage(message) && PlainValue(v) && PlainValue(code) && code != "" && n != SqlState
    ensures Parse(Render("ERROR", message + ("; " + FieldText((n, v))), [(SqlState, code)]))
      == Assemble("ERROR", message, map[SqlState := code, n := v])
  {
    hide Parse, Render, Collected, PlainMessage, PlainValue;
    TwoFields(message, n, v, code);
    CollectedFew(n, v, code);
    RoundTrip("ERROR", message, [(n, v), (SqlState, code)]);
  }

  /** The message `x; Hint: y` comes back as `x`. */
  lemma MessageCutExample()
    ensures Parse(Render("ERROR", "x; Hint: y", [(SqlState, "P0001")])).message == "x"
  {
    assert "x" + ("; " + FieldText((Hint, "y"))) == "x; Hint: y";
    assert LastSep("x") == None;
    MessageCut("x", Hint, "y", "P0001");
  }

  // ------------------------------------------------------------------ the severity

  /** A word in capitals and a colon open an error exactly if it is one of eight; else all of
      it is the message of an ERROR. */
  lemma SeverityExactly(word: string, message: string)
    requires PlainWord(word)
    ensures Severity(word + ": " + message) ==
      if word in {"ERROR", "FATAL", "PANIC", "WARNING", "NOTICE", "DEBUG", "INFO", "LOG"} then (word, message)
      else ("ERROR", word + ": " + message)
  {
    FirstColonAt(word, message);
    var raw := word + ": " + message;
    assert raw[..|word|] == word && raw[|word| + 2..] == message;
  }

  /** An error without fields and without a known severity: all of it is the message, and the
      code is the one for an internal error. */
  lemma BareMessage(message: string)
    requires NoSemi(message) && Text.Trim(message) == message && FirstColon(message).None?
    ensures Parse(message) == DbError("ERROR", "XX000", message, None, None, None, None)
  {
    NoSemiNoSep(message);
    hide Text.Trim;
  }

  /** The five fields by their names, anything else being none. */
  lemma FieldExactly(v: string)
    ensures FieldOf("SQLState: " + v) == Some((SqlState, Text.Trim(v)))
    ensures FieldOf("Position: " + v) == Some((Position, Text.Trim(v)))
    ensures FieldOf("Hint: " + v) == Some((Hint, Text.Trim(v)))
    ensures FieldOf("Detail: " + v) == Some((Detail, Text.Trim(v)))
    ensures FieldOf("Where: " + v) == Some((Where, Text.Trim(v)))
  {
    hide FieldOf;
    FieldRead(SqlState, v);
    FieldRead(Position, v);
    FieldRead(Hint, v);
    FieldRead(Detail, v);
    FieldRead(Where, v);
  }

  /** Each field of a rendered error is read into its own place, and a place is empty, or the
      code is the one for an internal error, if its field is not there. */
  lemma FieldsRead(severity: string, message: string, fs: seq<Field>, n: Name)
    requires severity in SEVERITIES && Distinct(fs) && fs != [] && fs[|fs| - 1].1 != ""
    requires PlainMessage(message) && PlainFields(fs)
    ensures var e := Parse(Render(severity, message, fs));
      var read := match n
        case SqlState => Some(e.code)
        case Position => e.position
        case Hint => e.hint
        case Detail => e.detail
        case Where => e.context;
      && e.severity == severity && e.message == message
      && (forall i :: 0 <= i < |fs| && fs[i].0 == n ==> read == Some(fs[i].1))
      && ((forall i :: 0 <= i < |fs| ==> fs[i].0 != n) ==> read == if n == SqlState then Some("XX000") else None)
  {
    hide Parse, Render, PlainMessage, PlainFields, Collected;
    RoundTrip(severity, message, fs);
    CollectedIs(map[], fs, n);
  }
}
