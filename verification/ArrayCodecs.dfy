/**
  The element codecs of module `NumericWire` and module `Bytea` put to work in arrays:
  `numeric[]` and `bytea[]` (src/types.rs:327-407, src/types.rs:668-695,
  src/types.rs:931-976).
*/
module ArrayCodecs {
  import opened Wrappers
  import opened Bytes
  import opened ArrayLiteral
  import opened ArrayWire
  import NumericWire
  import Numeric
  import Bytea
  import Decimal
  import Text

  const NUMERIC_CODEC := Codec(1700,
    text => if NumericWire.EncodeNumeric(text).Ok? then Some(NumericWire.EncodeNumeric(text).value) else None,
    b => if NumericWire.HeaderOk(b) && NumericWire.DecodeNumeric(b).Ok?
         then Some(NumericWire.DecodeNumeric(b).value) else None)

  const BYTEA_CODEC := Codec(17, text => Bytea.ParseBytea(text), b => Some(Bytea.RenderBytea(b)))

  /** The text after a minus sign. */
  function Unsigned(text: string): string { if "-" <= text then text[1..] else text }

  /** Digits without a needless zero in front, and digits behind the point if there is
      one; a minus sign at most; or one of the three words. */
  predicate NormalForm(text: string) {
    text in {"NaN", "Infinity", "-Infinity"} || NormalDecimal(Unsigned(text))
  }

  predicate NormalDecimal(rest: string) {
    var p := Numeric.PointAt(rest);
    && p > 0 && Decimal.AllDigits(rest[..p])
    && (p > 1 ==> rest[0] != '0')
    && (p < |rest| ==> p + 1 < |rest| && Decimal.AllDigits(rest[p + 1..]))
  }

  lemma {:induction false} StripIsNormal(s: string)
    requires Decimal.AllDigits(s)
    ensures var d := Numeric.StripZeros(s);
      d != "" && Decimal.AllDigits(d) && (|d| > 1 ==> d[0] != '0') && (d != "0" ==> d[0] != '0')
    ensures s != "" && (s == "0" || s[0] != '0') ==> Numeric.StripZeros(s) == s
  {
    if s != "" && s[0] == '0' {
      StripIsNormal(s[1..]);
    }
  }

  /** What is printed is in normal form. */
  lemma PrintedIsNormal(neg: bool, intPart: string, fracPart: string)
    requires Decimal.AllDigits(intPart) && Decimal.AllDigits(fracPart)
    ensures NormalForm(Numeric.Printed(neg, intPart, fracPart))
  {
    var d, tail := Numeric.StripZeros(intPart), if fracPart == "" then "" else "." + fracPart;
    StripIsNormal(intPart);
    NumericWire.PointAfterDigits(d, tail);
    var text := Numeric.Printed(neg, intPart, fracPart);
    assert text == (if neg then "-" else "") + (d + tail);
    assert (d + tail)[..|d|] == d;
    assert fracPart != "" ==> (d + tail)[|d| + 1..] == fracPart;
    assert Decimal.IsDigit(d[0]) && (d + tail)[0] == d[0];
    if neg {
      assert "-" <= text && text[1..] == d + tail;
    } else {
      assert text == d + tail && text[0] == d[0] && !("-" <= text);
    }
    assert Unsigned(text) == d + tail;
  }

  lemma NormalParts(rest: string) returns (i: string, f: string)
    requires NormalDecimal(rest)
    ensures rest == i + NumericWire.Tail(f)
    ensures i != "" && Decimal.AllDigits(i) && Decimal.AllDigits(f) && (i == "0" || i[0] != '0')
  {
    hide Numeric.PointAt;
    var p := Numeric.PointAt(rest);
    i, f := rest[..p], if p < |rest| then rest[p + 1..] else "";
    assert i[0] == rest[0];
    assert rest == i + NumericWire.Tail(f);
  }

  /** A decimal in normal form is read and printed as itself. */
  lemma NormalPrintsSame(text: string)
    requires NormalDecimal(Unsigned(text))
    ensures Numeric.ReadText(text).Some? && NumericWire.Normalised(Numeric.ReadText(text).value) == text
  {
    hide Numeric.ReadText, NumericWire.Normalised, NormalDecimal, NumericWire.Tail;
    var i, f := NormalParts(Unsigned(text));
    var neg := "-" <= text;
    assert text == (if neg then "-" else "") + Unsigned(text);
    assert text == (if neg then "-" else "") + i + NumericWire.Tail(f);
    PrintsSame(neg, i, f);
  }

  lemma PrintsSame(neg: bool, i: string, f: string)
    requires i != "" && Decimal.AllDigits(i) && Decimal.AllDigits(f) && (i == "0" || i[0] != '0')
    ensures var text := (if neg then "-" else "") + i + NumericWire.Tail(f);
      Numeric.ReadText(text).Some? && NumericWire.Normalised(Numeric.ReadText(text).value) == text
  {
    hide Numeric.ReadText, Numeric.StripZeros;
    NumericWire.ReadBack(neg, i, f);
    StripIsNormal(i);
  }

  lemma NormalExactly(text: string)
    requires Numeric.ReadText(text).Some?
    ensures NumericWire.Normalised(Numeric.ReadText(text).value) == text <==> NormalForm(text)
  {
    var t := Numeric.ReadText(text).value;
    if t.Finite? {
      PrintedIsNormal(t.neg, t.intPart, t.fracPart);
    }
    if NormalDecimal(Unsigned(text)) {
      NormalPrintsSame(text);
    } else if text in {"NaN", "Infinity", "-Infinity"} {
      Text.TrimNothing(text);
    }
  }

  /** A numeric element comes back as the same text exactly if it is in normal form. */
  lemma NumericSurvives(text: string)
    requires NumericWire.EncodeNumeric(text).Ok? && |NumericWire.EncodeNumeric(text).value| <= I32_MAX
    ensures Numeric.ReadText(text).Some?
    ensures Survives(Some(text), NUMERIC_CODEC) <==> NormalForm(text)
  {
    hide NumericWire.EncodeNumeric, NumericWire.DecodeNumeric, NumericWire.HeaderOk, NormalForm, Numeric.ReadText;
    NumericWire.TextRoundTrip(text);
    NormalExactly(text);
  }

  function Rendered(row: Option<seq<byte>>): Option<string> {
    if row.None? then None else Some(Bytea.RenderBytea(row.value))
  }

  function RenderedRows(rows: seq<Option<seq<byte>>>): (items: seq<Option<string>>)
    ensures |items| == |rows|
    ensures forall i :: 0 <= i < |rows| ==> items[i] == Rendered(rows[i])
  {
    seq(|rows|, i requires 0 <= i < |rows| => Rendered(rows[i]))
  }

  /** Any `bytea[]`, NULLs included, keeps every byte from its literal through the wire
      format and back. */
  lemma ByteaArrayRoundTrip(rows: seq<Option<seq<byte>>>)
    requires |rows| <= I32_MAX
    requires forall i :: 0 <= i < |rows| && rows[i].Some? ==> |rows[i].value| <= I32_MAX
    ensures var text := Literal(RenderedRows(rows));
      && EncodeArray(text, BYTEA_CODEC).Ok? && ArrayWire.HeaderOk(EncodeArray(text, BYTEA_CODEC).value)
      && DecodeArray(EncodeArray(text, BYTEA_CODEC).value, BYTEA_CODEC) == Ok(text)
      && ParseLiteral(text) == Ok(RenderedRows(rows))
  {
    hide Literal, EncodeArray, DecodeArray, ParseLiteral, ArrayWire.HeaderOk;
    var items := RenderedRows(rows);
    forall i | 0 <= i < |items| ensures Survives(items[i], BYTEA_CODEC) {
      if rows[i].Some? {
        Bytea.ByteaRoundTrip(rows[i].value);
      }
    }
    PrintedArrayRoundTrip(items, BYTEA_CODEC);
    LiteralRoundTrip(items);
  }
}
