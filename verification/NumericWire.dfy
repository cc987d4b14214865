/**
  `numeric` on the wire: the loops of src/types.rs:564-665 and src/types.rs:866-928
  and the round trips between decimal text and bytes.
*/
module NumericWire {
  import opened Wrappers
  import opened Decimal
  import opened Bytes
  import opened Numeric
  import Seqs
  import Text

  datatype NumericError = NotNumeric | TooManyPlaces | TooLong | OutOfRange | ShortHeader | ShortDigits

  const I16_MAX := 0x7FFF

  // ---------------------------------------------------------------------- encoding

  function EncodeNumeric(text: string): Result<seq<byte>, NumericError> {
    match ReadText(text)
    case None => Err(NotNumeric)
    case Some(NaN) => Ok(Header(0, 0, SIGN_NAN, 0))
    case Some(PosInf) => Ok(Header(0, 0, SIGN_PINF, 0))
    case Some(NegInf) => Ok(Header(0, 0, SIGN_NINF, 0))
    case Some(Finite(neg, intPart, fracPart)) =>
      if |fracPart| > I16_MAX then Err(TooManyPlaces) else EncodeFinite(neg, intPart, fracPart)
  }

  function EncodeFinite(neg: bool, intPart: string, fracPart: string): Result<seq<byte>, NumericError>
    requires AllDigits(intPart) && AllDigits(fracPart) && |fracPart| <= I16_MAX
  {
    PackGroups(neg, intPart, fracPart);
    var p := Pack(neg, intPart, fracPart);
    if |p.digits| > I16_MAX then Err(TooLong)
    else if !IsI16(p.weight) then Err(OutOfRange)
    else Ok(PackedBytes(p))
  }

  /** `push` one group for every four characters. */
  method PushGroups(digits: seq<int>, s: string) returns (r: seq<int>)
    requires |s| % 4 == 0 && AllDigits(s)
    ensures r == digits + Groups(s)
  {
    r := digits;
    var i := 0;
    assert s[0..] == s;
    while i < |s|
      invariant 0 <= i <= |s| && i % 4 == 0
      invariant r + Groups(s[i..]) == digits + Groups(s)
    {
      assert s[i..][..4] == s[i..i + 4] && s[i..][4..] == s[i + 4..];
      r := r + [FromDigits(s[i..i + 4])];
      i := i + 4;
    }
  }

  method CountLeadingZeros(digits: seq<int>) returns (lead: nat)
    ensures lead == LeadingZeros(digits)
  {
    lead := 0;
    while lead < |digits| && digits[lead] == 0
      invariant 0 <= lead <= |digits|
      invariant forall i :: 0 <= i < lead ==> digits[i] == 0
    {
      lead := lead + 1;
    }
    LeadingZerosIs(digits, lead);
  }

  method PopTrailingZeros(digits0: seq<int>) returns (digits: seq<int>)
    ensures digits == DropTrailing(digits0)
  {
    digits := digits0;
    while digits != [] && digits[|digits| - 1] == 0
      invariant DropTrailing(digits) == DropTrailing(digits0)
      decreases |digits|
    {
      digits := digits[..|digits| - 1];
    }
  }

  lemma DigitBytesSnoc(ds: seq<int>, d: int)
    requires (forall i :: 0 <= i < |ds| ==> IsI16(ds[i])) && IsI16(d)
    ensures DigitBytes(ds + [d]) == DigitBytes(ds) + I16(d)
  {
  }

  method AppendDigits(out: seq<byte>, digits: seq<int>) returns (r: seq<byte>)
    requires forall i :: 0 <= i < |digits| ==> IsI16(digits[i])
    ensures r == out + DigitBytes(digits)
  {
    r := out;
    for i := 0 to |digits|
      invariant r == out + DigitBytes(digits[..i])
    {
      DigitBytesSnoc(digits[..i], digits[i]);
      assert digits[..i + 1] == digits[..i] + [digits[i]];
      r := r + I16(digits[i]);
    }
    assert digits[..|digits|] == digits;
  }

  /** The source's `numeric_to_binary`. */
  method NumericToBinary(text: string) returns (r: Result<seq<byte>, NumericError>)
    ensures r == EncodeNumeric(text)
  {
    match ReadText(text) {
      case None =>
        return Err(NotNumeric);
      case Some(NaN) =>
        return Ok(Header(0, 0, SIGN_NAN, 0));
      case Some(PosInf) =>
        return Ok(Header(0, 0, SIGN_PINF, 0));
      case Some(NegInf) =>
        return Ok(Header(0, 0, SIGN_NINF, 0));
      case Some(Finite(neg, intPart, fracPart)) =>
        if |fracPart| > I16_MAX {
          return Err(TooManyPlaces);
        }
        r := PackLoop(neg, intPart, fracPart);
    }
  }

  method PackLoop(neg: bool, intPart: string, fracPart: string) returns (r: Result<seq<byte>, NumericError>)
    requires AllDigits(intPart) && AllDigits(fracPart) && |fracPart| <= I16_MAX
    ensures r == EncodeFinite(neg, intPart, fracPart)
  {
    PackGroups(neg, intPart, fracPart);
    var paddedInt := PadInt(intPart);
    var digits := PushGroups([], paddedInt);
    digits := PushGroups(digits, PadFrac(fracPart));
    assert digits == Groups(paddedInt) + Groups(PadFrac(fracPart));
    var weight := |paddedInt| / 4 - 1;
    var lead := CountLeadingZeros(digits);
    digits := PopTrailingZeros(digits[lead..]);
    weight := weight - lead;
    if digits == [] {
      weight := 0;
    }
    assert Packed(neg, weight, |fracPart|, digits) == Pack(neg, intPart, fracPart);
    if |digits| > I16_MAX {
      return Err(TooLong);
    }
    if !IsI16(weight) {
      return Err(OutOfRange);
    }
    var out := Header(|digits|, weight, if neg then SIGN_NEG else SIGN_POS, |fracPart|);
    out := AppendDigits(out, digits);
    return Ok(out);
  }

  // ---------------------------------------------------------------------- decoding

  function SpecialText(sign: int): Option<string> {
    if sign == SIGN_NAN then Some("NaN")
    else if sign == SIGN_PINF then Some("Infinity")
    else if sign == SIGN_NINF then Some("-Infinity")
    else None
  }

  /** The digit count is not negative, nor is the scale of a value that is complete, as
      the decoder takes for granted. */
  predicate HeaderOk(b: seq<byte>) {
    |b| >= 8 && SpecialText(ReadU16(b, 4)).None? ==>
      ReadI16(b, 0) >= 0 && (|b| >= 8 + 2 * ReadI16(b, 0) ==> ReadI16(b, 6) >= 0)
  }

  function ReadDigits(b: seq<byte>, n: nat): (ds: seq<int>)
    requires 8 + 2 * n <= |b|
    ensures |ds| == n && forall i :: 0 <= i < n ==> ds[i] == DigitAt(b, i)
  {
    seq(n, i requires 0 <= i < n => DigitAt(b, i))
  }

  function DigitAt(b: seq<byte>, i: nat): (d: int)
    requires 10 + 2 * i <= |b|
    ensures IsI16(d)
  {
    ReadI16(b, 8 + 2 * i)
  }

  function DecodeNumeric(b: seq<byte>): Result<string, NumericError>
    requires HeaderOk(b)
  {
    if |b| < 8 then Err(ShortHeader)
    else
      var sign := ReadU16(b, 4);
      match SpecialText(sign)
      case Some(s) => Ok(s)
      case None =>
        if |b| < 8 + 2 * ReadI16(b, 0) then Err(ShortDigits)
        else Ok(PackedText(Packed(sign == SIGN_NEG, ReadI16(b, 2), ReadI16(b, 6), ReadDigits(b, ReadI16(b, 0)))))
  }

  /** The loop over `0..=weight`. */
  method PrintInt(digits: seq<int>, weight: int) returns (intPart: string)
    ensures intPart == IntText(digits, weight)
  {
    intPart := "";
    if weight >= 0 {
      intPart := Fmt(Get(digits, 0));
      var i := 1;
      while i <= weight
        invariant 1 <= i <= weight + 1
        invariant intPart + IntTail(digits, i, weight) == IntText(digits, weight)
      {
        ghost var before, rest := intPart, IntTail(digits, i + 1, weight);
        intPart := intPart + Fmt04(Get(digits, i));
        assert before + (Fmt04(Get(digits, i)) + rest) == intPart + rest;
        i := i + 1;
      }
    }
    if intPart == "" {
      intPart := "0";
    }
    FmtNotEmpty(Get(digits, 0));
  }

  lemma FmtNotEmpty(d: int)
    ensures Fmt(d) != ""
  {
  }

  /** The loop that prints groups until the display scale is reached. */
  method PrintFrac(digits: seq<int>, from: int, dscale: nat) returns (frac: string)
    ensures frac == FracFrom(digits, from, dscale)[..dscale]
  {
    frac := "";
    var i := from;
    while |frac| < dscale
      invariant Printing(digits, from, dscale, frac, i)
      decreases dscale - |frac|
    {
      PrintOneGroup(digits, from, dscale, frac, i);
      frac := frac + Fmt04(Get(digits, i));
      i := i + 1;
    }
    PrintedAll(digits, from, dscale, frac, i);
    frac := frac[..dscale];
  }

  ghost predicate Printing(digits: seq<int>, from: int, dscale: nat, frac: string, i: int) {
    frac + FracFrom(digits, i, dscale - |frac|) == FracFrom(digits, from, dscale)
  }

  lemma PrintOneGroup(digits: seq<int>, from: int, dscale: nat, frac: string, i: int)
    requires Printing(digits, from, dscale, frac, i) && |frac| < dscale
    ensures Printing(digits, from, dscale, frac + Fmt04(Get(digits, i)), i + 1)
  {
    hide FracFrom, Fmt04;
    FracUnfold(digits, i, dscale - |frac|);
    PrintGroup(digits, from, dscale, frac, i, Fmt04(Get(digits, i)));
  }

  lemma PrintGroup(digits: seq<int>, from: int, dscale: nat, frac: string, i: int, g: string)
    requires Printing(digits, from, dscale, frac, i)
    requires FracFrom(digits, i, dscale - |frac|) == g + FracFrom(digits, i + 1, dscale - |frac| - |g|)
    ensures Printing(digits, from, dscale, frac + g, i + 1)
  {
    hide FracFrom;
    var rest := FracFrom(digits, i + 1, dscale - |frac| - |g|);
    Seqs.Advance(FracFrom(digits, from, dscale), frac, FracFrom(digits, i, dscale - |frac|), g, rest);
    assert dscale - |frac| - |g| == dscale - |frac + g|;
  }

  lemma FracUnfold(digits: seq<int>, i: int, need: int)
    requires need > 0
    ensures FracFrom(digits, i, need) ==
      Fmt04(Get(digits, i)) + FracFrom(digits, i + 1, need - |Fmt04(Get(digits, i))|)
  {
  }

  lemma PrintedAll(digits: seq<int>, from: int, dscale: nat, frac: string, i: int)
    requires Printing(digits, from, dscale, frac, i) && |frac| >= dscale
    ensures frac == FracFrom(digits, from, dscale)
  {
    assert frac + "" == frac;
  }

  /** The text of decoded fields. */
  method PrintPacked(p: Packed) returns (out: string)
    requires p.dscale >= 0
    ensures out == PackedText(p)
  {
    hide IntText, FracFrom;
    var sign := if p.neg then "-" else "";
    var intPart := PrintInt(p.digits, p.weight);
    out := sign + intPart;
    if p.dscale > 0 {
      var frac := PrintFrac(p.digits, p.weight + 1, p.dscale);
      out := out + "." + frac;
      assert sign + intPart + ("." + frac) == sign + intPart + "." + frac;
    } else {
      assert sign + intPart + "" == sign + intPart;
    }
  }

  /** The source's `binary_numeric_to_text`. */
  method BinaryNumericToText(b: seq<byte>) returns (r: Result<string, NumericError>)
    requires HeaderOk(b)
    ensures r == DecodeNumeric(b)
  {
    if |b| < 8 {
      return Err(ShortHeader);
    }
    var sign := ReadU16(b, 4);
    match SpecialText(sign) {
      case Some(s) =>
        return Ok(s);
      case None =>
        var ndigits, weight, dscale := ReadI16(b, 0), ReadI16(b, 2), ReadI16(b, 6);
        if |b| < 8 + 2 * ndigits {
          return Err(ShortDigits);
        }
        var out := PrintPacked(Packed(sign == SIGN_NEG, weight, dscale, ReadDigits(b, ndigits)));
        return Ok(out);
    }
  }

  // ------------------------------------------------------------------- round trips

  lemma HeaderFields(ndigits: int, weight: int, sign: int, dscale: int, rest: seq<byte>)
    requires IsI16(ndigits) && IsI16(weight) && 0 <= sign < 0x1_0000 && IsI16(dscale)
    ensures var b := Header(ndigits, weight, sign, dscale) + rest;
      ReadI16(b, 0) == ndigits && ReadI16(b, 2) == weight && ReadU16(b, 4) == sign && ReadI16(b, 6) == dscale
  {
    var b := Header(ndigits, weight, sign, dscale) + rest;
    assert b[0..2] == I16(ndigits) && b[2..4] == I16(weight) && b[4..6] == U16(sign) && b[6..8] == I16(dscale);
    ReadBackI16(ndigits, b, 0);
    ReadBackI16(weight, b, 2);
    ReadBackU16(sign, b, 4);
    ReadBackI16(dscale, b, 6);
  }

  lemma DigitBack(head: seq<byte>, ds: seq<int>, i: nat)
    requires |head| == 8 && (forall k :: 0 <= k < |ds| ==> IsI16(ds[k])) && i < |ds|
    ensures DigitAt(head + DigitBytes(ds), i) == ds[i]
  {
    var b := head + DigitBytes(ds);
    assert b[8 + 2 * i] == I16(ds[i])[0] && b[8 + 2 * i + 1] == I16(ds[i])[1];
    ReadBackI16(ds[i], b, 8 + 2 * i);
  }

  lemma DigitsBack(head: seq<byte>, ds: seq<int>)
    requires |head| == 8 && forall k :: 0 <= k < |ds| ==> IsI16(ds[k])
    ensures ReadDigits(head + DigitBytes(ds), |ds|) == ds
  {
    forall i | 0 <= i < |ds| ensures DigitAt(head + DigitBytes(ds), i) == ds[i] {
      DigitBack(head, ds, i);
    }
    ReadDigitsAre(head + DigitBytes(ds), ds);
  }

  lemma ReadDigitsAre(b: seq<byte>, ds: seq<int>)
    requires 8 + 2 * |ds| <= |b|
    requires forall i :: 0 <= i < |ds| ==> DigitAt(b, i) == ds[i]
    ensures ReadDigits(b, |ds|) == ds
  {
  }

  lemma DecodeFields(b: seq<byte>, p: Packed)
    requires |b| == 8 + 2 * |p.digits| && p.dscale >= 0
    requires ReadI16(b, 0) == |p.digits| && ReadI16(b, 2) == p.weight && ReadI16(b, 6) == p.dscale
    requires ReadU16(b, 4) == if p.neg then SIGN_NEG else SIGN_POS
    requires ReadDigits(b, |p.digits|) == p.digits
    ensures HeaderOk(b) && DecodeNumeric(b) == Ok(PackedText(p))
  {
  }

  /** Reading back what was written gives the text of the packed value. */
  lemma DecodePacked(p: Packed)
    requires Fits(p) && p.dscale >= 0 && forall k :: 0 <= k < |p.digits| ==> IsI16(p.digits[k])
    ensures HeaderOk(PackedBytes(p)) && DecodeNumeric(PackedBytes(p)) == Ok(PackedText(p))
  {
    var sign := if p.neg then SIGN_NEG else SIGN_POS;
    HeaderFields(|p.digits|, p.weight, sign, p.dscale, DigitBytes(p.digits));
    DigitsBack(Header(|p.digits|, p.weight, sign, p.dscale), p.digits);
    DecodeFields(PackedBytes(p), p);
  }

  lemma DecodeSpecial(sign: int)
    requires 0 <= sign < 0x1_0000 && SpecialText(sign).Some?
    ensures HeaderOk(Header(0, 0, sign, 0)) && DecodeNumeric(Header(0, 0, sign, 0)) == Ok(SpecialText(sign).value)
  {
    HeaderFields(0, 0, sign, 0, []);
    assert Header(0, 0, sign, 0) + [] == Header(0, 0, sign, 0);
  }

  /** How an accepted text comes back: special values as they were, finite ones
      with their sign, no leading zeros and every fraction digit. */
  function Normalised(t: NumericText): string {
    match t
    case NaN => "NaN"
    case PosInf => "Infinity"
    case NegInf => "-Infinity"
    case Finite(neg, intPart, fracPart) => Printed(neg, intPart, fracPart)
  }

  /** Text to binary and back is exact, for every text the encoder accepts. */
  lemma TextRoundTrip(text: string)
    requires EncodeNumeric(text).Ok?
    ensures ReadText(text).Some?
    ensures HeaderOk(EncodeNumeric(text).value)
    ensures DecodeNumeric(EncodeNumeric(text).value) == Ok(Normalised(ReadText(text).value))
  {
    match ReadText(text) {
      case Some(NaN) => DecodeSpecial(SIGN_NAN);
      case Some(PosInf) => DecodeSpecial(SIGN_PINF);
      case Some(NegInf) => DecodeSpecial(SIGN_NINF);
      case Some(Finite(neg, intPart, fracPart)) =>
        PackGroups(neg, intPart, fracPart);
        DecodePacked(Pack(neg, intPart, fracPart));
        PackThenPrint(neg, intPart, fracPart);
    }
  }

  lemma {:induction false} PointAfterDigits(a: string, u: string)
    requires AllDigits(a) && (u == "" || u[0] == '.')
    ensures PointAt(a + u) == |a|
  {
    if a == "" {
      assert a + u == u;
    } else {
      PointAfterDigits(a[1..], u);
      assert (a + u)[1..] == a[1..] + u;
    }
  }

  /** Whether a text is one of the special names, or is trimmed to something else. */
  lemma FirstDigit(t: string, i: string, neg: bool)
    requires i != "" && AllDigits(i)
    requires |t| > 1 && neg ==> t[0] == '-' && t[1] == i[0]
    requires t != "" && (neg ==> |t| > 1) && (!neg ==> t[0] == i[0])
    requires IsDigit(t[|t| - 1])
    ensures Text.Trim(t) == t && t != "NaN" && t != "Infinity" && t != "-Infinity"
    ensures ("-" <= t) == neg && !("+" <= t)
  {
    assert IsDigit(i[0]);
    Text.TrimNothing(t);
  }

  function Tail(f: string): string { if f == "" then "" else "." + f }

  lemma ReadParts(neg: bool, i: string, f: string)
    requires i != "" && AllDigits(i) && AllDigits(f)
    ensures ReadFinite(neg, i + Tail(f)) == Some(Finite(neg, i, f))
  {
    var rest := i + Tail(f);
    PointAfterDigits(i, Tail(f));
    assert rest[..|i|] == i;
    assert f != "" ==> rest[|i| + 1..] == f;
  }

  /** The printed form of a finite value reads back as its parts. */
  lemma ReadBack(neg: bool, i: string, f: string)
    requires i != "" && AllDigits(i) && AllDigits(f)
    ensures ReadText((if neg then "-" else "") + i + Tail(f)) == Some(Finite(neg, i, f))
  {
    var rest := i + Tail(f);
    var t := (if neg then "-" else "") + i + Tail(f);
    assert t == (if neg then "-" else "") + rest;
    assert t[|t| - 1] == if f == "" then i[|i| - 1] else f[|f| - 1];
    FirstDigit(t, i, neg);
    assert (if neg then t[1..] else t) == rest;
    ReadParts(neg, i, f);
  }

  lemma IntTextNotEmpty(ds: seq<int>, weight: int)
    ensures IntText(ds, weight) != ""
  {
    FmtNotEmpty(Get(ds, 0));
  }

  /** Binary to text and back is the identity on canonical encodings. */
  lemma BinaryRoundTrip(p: Packed)
    requires Canonical(p) && Fits(p)
    ensures forall k :: 0 <= k < |p.digits| ==> IsI16(p.digits[k])
    ensures HeaderOk(PackedBytes(p))
    ensures DecodeNumeric(PackedBytes(p)).Ok?
    ensures EncodeNumeric(DecodeNumeric(PackedBytes(p)).value) == Ok(PackedBytes(p))
  {
    CanonicalI16(p);
    DecodePacked(p);
    EncodePrinted(p);
  }

  lemma CanonicalI16(p: Packed)
    requires Canonical(p)
    ensures forall k :: 0 <= k < |p.digits| ==> IsI16(p.digits[k])
  {
  }

  lemma EncodePrinted(p: Packed)
    requires Canonical(p) && Fits(p) && forall k :: 0 <= k < |p.digits| ==> IsI16(p.digits[k])
    ensures EncodeNumeric(PackedText(p)) == Ok(PackedBytes(p))
  {
    var i, f := IntText(p.digits, p.weight), FracText(p);
    PrintThenPack(p);
    PrintedReads(p, i, f);
    EncodeReads(PackedText(p), p.neg, i, f);
    EncodeParts(p.neg, i, f, p);
  }

  lemma PrintedReads(p: Packed, i: string, f: string)
    requires p.dscale >= 0 && i == IntText(p.digits, p.weight) && f == FracText(p)
    requires AllDigits(i) && AllDigits(f)
    ensures ReadText(PackedText(p)) == Some(Finite(p.neg, i, f))
  {
    IntTextNotEmpty(p.digits, p.weight);
    PrintedParts(p);
    ReadBack(p.neg, i, f);
  }

  lemma EncodeReads(text: string, neg: bool, i: string, f: string)
    requires ReadText(text) == Some(Finite(neg, i, f)) && |f| <= I16_MAX
    ensures EncodeNumeric(text) == EncodeFinite(neg, i, f)
  {
    hide ReadText, EncodeFinite;
  }

  lemma EncodeParts(neg: bool, i: string, f: string, p: Packed)
    requires AllDigits(i) && AllDigits(f) && p == Pack(neg, i, f)
    requires Fits(p) && |f| <= I16_MAX && forall k :: 0 <= k < |p.digits| ==> IsI16(p.digits[k])
    ensures EncodeFinite(neg, i, f) == Ok(PackedBytes(p))
  {
  }

  lemma PrintedParts(p: Packed)
    requires p.dscale >= 0
    ensures PackedText(p) == (if p.neg then "-" else "") + IntText(p.digits, p.weight) + Tail(FracText(p))
  {
  }
}
