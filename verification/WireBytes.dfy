/**
  The bytes of the wire formats, one by one (src/types.rs:493-508, src/types.rs:564-695,
  src/types.rs:866-976).
*/
module WireBytes {
  import opened Wrappers
  import opened Decimal
  import opened Bytes
  import opened Numeric
  import opened NumericWire
  import Text
  import ArrayLiteral
  import ArrayWire
  import Bytea

  // ------------------------------------------------------------------- integers

  /** 16 bits, the high byte first, in two's complement. */
  lemma SixteenBits(n: int)
    requires -0x8000 <= n < 0x8000
    ensures I16(n)[0] as int * 256 + I16(n)[1] as int == if n < 0 then n + 0x1_0000 else n
  {
  }

  lemma SixteenBitsRead(b: seq<byte>, at: nat)
    requires at + 2 <= |b|
    ensures var n := b[at] as int * 256 + b[at + 1] as int;
      ReadI16(b, at) == (if n >= 0x8000 then n - 0x1_0000 else n) && ReadU16(b, at) == n
  {
  }

  /** 32 bits, the high byte first, in two's complement. */
  lemma ThirtyTwoBits(n: int)
    requires -0x8000_0000 <= n < 0x8000_0000
    ensures var r := I32(n);
      r[0] as int * 0x100_0000 + r[1] as int * 0x1_0000 + r[2] as int * 0x100 + r[3] as int
        == if n < 0 then n + 0x1_0000_0000 else n
  {
  }

  lemma ThirtyTwoBitsRead(b: seq<byte>, at: nat)
    requires at + 4 <= |b|
    ensures var n := b[at] as int * 0x100_0000 + b[at + 1] as int * 0x1_0000
                       + b[at + 2] as int * 0x100 + b[at + 3] as int;
      ReadI32(b, at) == if n >= 0x8000_0000 then n - 0x1_0000_0000 else n
  {
  }

  // -------------------------------------------------------------------- numeric

  /** The three words of `numeric`, byte for byte, white space around them dropped. */
  lemma SpecialBytes(text: string)
    ensures Text.Trim(text) == "NaN" ==> EncodeNumeric(text) == Ok([0, 0, 0, 0, 0xC0, 0, 0, 0])
    ensures Text.Trim(text) == "Infinity" ==> EncodeNumeric(text) == Ok([0, 0, 0, 0, 0xD0, 0, 0, 0])
    ensures Text.Trim(text) == "-Infinity" ==> EncodeNumeric(text) == Ok([0, 0, 0, 0, 0xF0, 0, 0, 0])
  {
    hide Text.Trim;
    assert Header(0, 0, 0xC000, 0) == [0, 0, 0, 0, 0xC0, 0, 0, 0];
    assert Header(0, 0, 0xD000, 0) == [0, 0, 0, 0, 0xD0, 0, 0, 0];
    assert Header(0, 0, 0xF000, 0) == [0, 0, 0, 0, 0xF0, 0, 0, 0];
  }

  lemma SpecialRead(b: seq<byte>)
    requires |b| >= 8 && b[5] == 0 && b[4] in {0xC0, 0xD0, 0xF0}
    ensures HeaderOk(b)
    ensures DecodeNumeric(b) == Ok(if b[4] == 0xC0 then "NaN" else if b[4] == 0xD0 then "Infinity" else "-Infinity")
  {
  }

  /** A sign at most, digits, and perhaps a point and digits; not both parts empty. */
  predicate DecimalText(t: string, sign: string, i: string, point: bool, f: string) {
    && sign in {"", "-", "+"} && AllDigits(i) && AllDigits(f) && i + f != "" && (!point ==> f == "")
    && t == sign + i + (if point then "." + f else "")
  }

  lemma {:induction false} PointBehind(i: string, u: string)
    requires AllDigits(i) && (u == "" || u[0] == '.')
    ensures PointAt(i + u) == |i|
  {
    if i == "" {
      assert i + u == u;
    } else {
      assert (i + u)[1..] == i[1..] + u;
      PointBehind(i[1..], u);
    }
  }

  /** Such a text is read as what it says, white space around it dropped. */
  lemma DecimalIsRead(text: string, sign: string, i: string, point: bool, f: string)
    requires DecimalText(Text.Trim(text), sign, i, point, f)
    ensures ReadText(text) == Some(Finite(sign == "-", i, f))
  {
    hide Text.Trim, ReadFinite;
    var t, tail := Text.Trim(text), if point then "." + f else "";
    assert sign + i + tail == sign + (i + tail);
    FiniteIsRead(sign == "-", i, point, f);
    SignIs(t, sign, i + tail);
  }

  lemma FiniteIsRead(neg: bool, i: string, point: bool, f: string)
    requires AllDigits(i) && AllDigits(f) && i + f != "" && (!point ==> f == "")
    ensures var rest := i + (if point then "." + f else "");
      rest != "" && (IsDigit(rest[0]) || rest[0] == '.') && ReadFinite(neg, rest) == Some(Finite(neg, i, f))
  {
    hide PointAt;
    var u := if point then "." + f else "";
    var rest := i + u;
    assert rest[0] == if i != "" then i[0] else '.';
    PointBehind(i, u);
    assert rest[..|i|] == i;
    assert point ==> rest[|i| + 1..] == f;
  }

  lemma SignIs(t: string, sign: string, rest: string)
    requires sign in {"", "-", "+"} && t == sign + rest && rest != "" && (IsDigit(rest[0]) || rest[0] == '.')
    ensures t !in {"NaN", "Infinity", "-Infinity"}
    ensures ("-" <= t <==> sign == "-") && ("+" <= t <==> sign == "+")
    ensures (if "-" <= t || "+" <= t then t[1..] else t) == rest
  {
    if sign == "" {
      assert t[0] == rest[0];
    } else {
      assert t[0] == sign[0] && t[1] == rest[0] && t[1..] == rest;
    }
  }

  /** And nothing else is read as a finite number. */
  lemma ReadIsDecimal(text: string, neg: bool, i: string, f: string) returns (sign: string, point: bool)
    requires ReadText(text) == Some(Finite(neg, i, f))
    ensures DecimalText(Text.Trim(text), sign, i, point, f) && (neg <==> sign == "-")
  {
    hide Text.Trim, ReadFinite;
    var t := Text.Trim(text);
    var rest := if "-" <= t || "+" <= t then t[1..] else t;
    sign := if "-" <= t then "-" else if "+" <= t then "+" else "";
    assert t == sign + rest;
    point := FiniteParts("-" <= t, rest, neg, i, f);
    var tail := if point then "." + f else "";
    assert sign + (i + tail) == sign + i + tail;
  }

  lemma FiniteParts(minus: bool, rest: string, neg: bool, i: string, f: string) returns (point: bool)
    requires ReadFinite(minus, rest) == Some(Finite(neg, i, f))
    ensures neg == minus && AllDigits(i) && AllDigits(f) && i + f != "" && (!point ==> f == "")
    ensures rest == i + (if point then "." + f else "")
  {
    hide PointAt;
    var p := PointAt(rest);
    point := p < |rest|;
    PointIsPoint(rest);
    assert rest == rest[..p] + (if point then "." + rest[p + 1..] else "");
  }

  lemma {:induction false} PointIsPoint(s: string)
    ensures PointAt(s) < |s| ==> s[PointAt(s)] == '.'
  {
    if s != "" && s[0] != '.' {
      PointIsPoint(s[1..]);
    }
  }

  lemma {:induction false} DigitBytesAre(ds: seq<int>, k: nat)
    requires k < |ds| && forall j :: 0 <= j < |ds| ==> IsI16(ds[j])
    ensures DigitBytes(ds)[2 * k] == I16(ds[k])[0] && DigitBytes(ds)[2 * k + 1] == I16(ds[k])[1]
  {
    assert (2 * k) / 2 == k && (2 * k) % 2 == 0 && (2 * k + 1) / 2 == k && (2 * k + 1) % 2 == 1;
  }

  /** Where each part of an encoded number is: the count of its groups, their weight, the
      sign, the scale, and the groups, each in 16 bits. */
  lemma PackedBytesAre(p: Packed, k: nat)
    requires Fits(p) && (forall j :: 0 <= j < |p.digits| ==> IsI16(p.digits[j])) && k < |p.digits|
    ensures var b := PackedBytes(p);
      && |b| == 8 + 2 * |p.digits|
      && b[..2] == I16(|p.digits|) && b[2..4] == I16(p.weight)
      && b[4..6] == (if p.neg then [0x40, 0] else [0, 0]) && b[6..8] == I16(p.dscale)
      && b[8 + 2 * k..10 + 2 * k] == I16(p.digits[k])
  {
    hide Header, DigitBytes, I16;
    var sign := if p.neg then 0x4000 else 0;
    HeaderIs(|p.digits|, p.weight, sign, p.dscale);
    var head, tail := Header(|p.digits|, p.weight, sign, p.dscale), DigitBytes(p.digits);
    DigitBytesAre(p.digits, k);
    var b := PackedBytes(p);
    assert b == head + tail;
    assert b[..2] == head[..2] && b[2..4] == head[2..4] && b[4..6] == head[4..6] && b[6..8] == head[6..8];
    assert b[8 + 2 * k] == tail[2 * k] && b[8 + 2 * k + 1] == tail[2 * k + 1];
    assert b[8 + 2 * k..10 + 2 * k] == [tail[2 * k], tail[2 * k + 1]] == I16(p.digits[k]);
  }

  /** A number that is not refused is written so, with the scale it was given. */
  lemma EncodedIsPacked(text: string, neg: bool, i: string, f: string)
    requires ReadText(text) == Some(Finite(neg, i, f)) && EncodeNumeric(text).Ok?
    ensures var p := Pack(neg, i, f);
      && Fits(p) && (forall j :: 0 <= j < |p.digits| ==> IsI16(p.digits[j]))
      && EncodeNumeric(text).value == PackedBytes(p)
      && p.neg == neg && p.dscale == |f|
  {
    hide ReadText, PackedBytes;
    PackGroups(neg, i, f);
    ScaleIs(neg, i, f);
  }

  lemma ScaleIs(neg: bool, i: string, f: string)
    requires AllDigits(i) && AllDigits(f)
    ensures Pack(neg, i, f).dscale == |f| && Pack(neg, i, f).neg == neg
  {
  }

  lemma HeaderIs(ndigits: int, weight: int, sign: int, dscale: int)
    requires IsI16(ndigits) && IsI16(weight) && sign in {0, 0x4000} && IsI16(dscale)
    ensures var h := Header(ndigits, weight, sign, dscale);
      h[..2] == I16(ndigits) && h[2..4] == I16(weight) && h[6..8] == I16(dscale)
      && h[4..6] == (if sign == 0 then [0, 0] else [0x40, 0])
  {
    var h := Header(ndigits, weight, sign, dscale);
    assert h[4..6] == U16(sign);
  }

  /** Which numbers are refused: more than 32767 decimal places or groups, or a weight that
      does not fit in 16 bits. */
  lemma RefusedExactly(text: string, neg: bool, i: string, f: string)
    requires ReadText(text) == Some(Finite(neg, i, f))
    ensures EncodeNumeric(text).Ok? <==>
      |f| <= 32767 && |Pack(neg, i, f).digits| <= 32767 && -32768 <= Pack(neg, i, f).weight <= 32767
    ensures EncodeNumeric(text) == Err(TooManyPlaces) <==> |f| > 32767
    ensures EncodeNumeric(text) == Err(TooLong) <==> |f| <= 32767 && |Pack(neg, i, f).digits| > 32767
  {
    hide ReadText, Pack;
  }

  // ---------------------------------------------------------------------- arrays

  /** The first twelve bytes decide: too few are refused; no dimension is the empty array,
      and any number of them but one is refused. */
  lemma DimensionsExactly(b: seq<byte>, c: ArrayWire.Codec)
    requires ArrayWire.HeaderOk(b)
    ensures |b| < 12 ==> ArrayWire.DecodeArray(b, c) == Err(ArrayWire.ShortArray)
    ensures |b| >= 12 && b[..4] == [0, 0, 0, 0] ==>
      ArrayWire.DecodeArray(b, c) == Ok("{}") && ArrayLiteral.Literal([]) == "{}"
    ensures |b| >= 12 && b[..4] !in {[0, 0, 0, 0], [0, 0, 0, 1]} ==>
      ArrayWire.DecodeArray(b, c) == Err(ArrayWire.Multidimensional)
  {
    if |b| >= 12 {
      assert b[..4] == [b[0], b[1], b[2], b[3]];
      ThirtyTwoBitsRead(b, 0);
      hide ReadI32;
    }
  }

  /** What an encoded array opens with: one dimension, whether there is a NULL, the type of
      the elements, their number, and the lower bound 1. */
  lemma ArrayHeaderBytes(items: seq<Option<string>>, oid: int)
    requires 0 <= oid < 0x1_0000_0000 && |items| <= 0x7FFF_FFFF
    ensures var h := ArrayWire.ArrayHeader(items, oid);
      && |h| == 20 && h[..4] == [0, 0, 0, 1] && h[4..8] == [0, 0, 0, if None in items then 1 else 0]
      && h[8] as int * 0x100_0000 + h[9] as int * 0x1_0000 + h[10] as int * 0x100 + h[11] as int == oid
      && h[12..16] == I32(|items|) && h[16..20] == [0, 0, 0, 1]
  {
    var h := ArrayWire.ArrayHeader(items, oid);
    assert h[8..12] == U32(oid);
    assert h[8] == h[8..12][0] && h[9] == h[8..12][1] && h[10] == h[8..12][2] && h[11] == h[8..12][3];
    var front := I32(1) + I32(if None in items then 1 else 0) + U32(oid) + I32(|items|);
    assert h == front + I32(1);
    assert h[16..20] == I32(1);
    assert h[12..16] == I32(|items|) && h[..4] == I32(1);
    assert I32(1) == [0, 0, 0, 1] && I32(0) == [0, 0, 0, 0];
  }

  // ----------------------------------------------------------------------- bytea

  function HexDigitOf(c: char): Option<int> {
    if '0' <= c <= '9' then Some(c as int - '0' as int)
    else if 'a' <= c <= 'f' then Some(c as int - 'a' as int + 10)
    else if 'A' <= c <= 'F' then Some(c as int - 'A' as int + 10)
    else None
  }

  /** Two characters that stand for a byte: two hexadecimal digits, or a plus sign and one. */
  lemma PairExactly(a: char, b: char)
    ensures var high, low := if a == '+' then Some(0) else HexDigitOf(a), HexDigitOf(b);
      Bytea.ParsePair(a, b) == if high.None? || low.None? then None else Some((16 * high.value + low.value) as byte)
  {
  }

  predicate PairsFit(hex: string) { forall k :: 0 <= k < |hex| / 2 ==> PairAt(hex, k).Some? }

  function PairAt(hex: string, k: nat): Option<Bytes.byte>
    requires k < |hex| / 2
  {
    Bytea.ParsePair(hex[2 * k], hex[2 * k + 1])
  }

  lemma PairShift(hex: string, k: nat)
    requires |hex| % 2 == 0 && 0 < k < |hex| / 2
    ensures k - 1 < |hex[2..]| / 2 && PairAt(hex[2..], k - 1) == PairAt(hex, k)
  {
    assert hex[2..][2 * (k - 1)] == hex[2 * k] && hex[2..][2 * (k - 1) + 1] == hex[2 * k + 1];
  }

  /** A text of such pairs is taken pair by pair, and one with any other pair is refused. */
  lemma {:induction false} PairsExactly(hex: string)
    requires |hex| % 2 == 0
    ensures Bytea.ParsePairs(hex).Some? <==> PairsFit(hex)
    ensures Bytea.ParsePairs(hex).Some? ==> forall k :: 0 <= k < |hex| / 2 ==>
      PairAt(hex, k) == Some(Bytea.ParsePairs(hex).value[k])
  {
    hide Bytea.ParsePair;
    if hex != "" {
      PairsExactly(hex[2..]);
      forall k: nat | 0 < k < |hex| / 2
        ensures k - 1 < |hex[2..]| / 2 && PairAt(hex[2..], k - 1) == PairAt(hex, k)
      {
        PairShift(hex, k);
      }
      forall k: nat | k < |hex[2..]| / 2 ensures PairAt(hex[2..], k) == PairAt(hex, k + 1) {
        PairShift(hex, k + 1);
      }
      assert PairAt(hex, 0) == Bytea.ParsePair(hex[0], hex[1]);
      if PairsFit(hex) {
        assert PairsFit(hex[2..]);
      }
    }
  }

  /** `\x` and an even number of characters, or it is refused. */
  lemma ByteaExactly(text: string)
    ensures Bytea.ParseBytea(text).Some? <==>
      |text| >= 2 && text[0] == '\\' && text[1] == 'x' && |text| % 2 == 0 && PairsFit(text[2..])
  {
    if |text| >= 2 && |text| % 2 == 0 {
      PairsExactly(text[2..]);
    }
  }

  /** What a decoded number is made of: the weight, the scale and the groups as written, and
      a minus sign only for one sign word. */
  lemma DecodedFields(b: seq<byte>) returns (p: Packed)
    requires |b| >= 8 && HeaderOk(b) && !(b[5] == 0 && b[4] in {0xC0, 0xD0, 0xF0})
    ensures |b| < 8 + 2 * ReadI16(b, 0) <==> DecodeNumeric(b).Err?
    ensures DecodeNumeric(b).Ok? ==>
      && p.neg == (b[4] == 0x40 && b[5] == 0) && p.weight == ReadI16(b, 2) && p.dscale == ReadI16(b, 6) >= 0
      && |p.digits| == ReadI16(b, 0) && |b| >= 8 + 2 * |p.digits|
      && (forall k :: 0 <= k < |p.digits| ==> p.digits[k] == ReadI16(b, 8 + 2 * k))
      && DecodeNumeric(b) == Ok(PackedText(p))
  {
    p := Packed(false, 0, 0, []);
    NotSpecial(b);
    hide PackedText, ReadI16, ReadU16, SpecialText;
    if |b| >= 8 + 2 * ReadI16(b, 0) {
      p := Packed(ReadU16(b, 4) == 0x4000, ReadI16(b, 2), ReadI16(b, 6), ReadDigits(b, ReadI16(b, 0)));
    }
  }

  lemma NotSpecial(b: seq<byte>)
    requires |b| >= 8 && !(b[5] == 0 && b[4] in {0xC0, 0xD0, 0xF0})
    ensures SpecialText(ReadU16(b, 4)).None?
    ensures ReadU16(b, 4) == 0x4000 <==> b[4] == 0x40 && b[5] == 0
  {
  }

  /** A group is printed as its digits, zeros in front up to four characters, the sign
      counted as one. */
  lemma GroupExactly(d: int)
    ensures d >= 0 ==> AllDigits(Fmt04(d)) && FromDigits(Fmt04(d)) == d
    ensures d < 0 ==> Fmt04(d)[0] == '-' && AllDigits(Fmt04(d)[1..]) && FromDigits(Fmt04(d)[1..]) == -d
    ensures |Fmt04(d)| > 4 ==> Fmt04(d) == Fmt(d)
  {
    var s, width := ToDecimal(if d >= 0 then d else -d), if d >= 0 then 4 else 3;
    DecimalRoundTrip(if d >= 0 then d else -d);
    var zeros := Text.Repeat('0', if |s| >= width then 0 else width - |s|);
    ZerosInFront(zeros, s);
    assert PadTo(s, width) == zeros + s;
    if d < 0 {
      assert Fmt04(d)[1..] == zeros + s;
    }
  }

  lemma {:induction false} ZerosInFront(z: string, s: string)
    requires (forall i :: 0 <= i < |z| ==> z[i] == '0') && AllDigits(s)
    ensures AllDigits(z + s) && FromDigits(z + s) == FromDigits(s)
    decreases |s|, |z|
  {
    if s == "" {
      assert z + s == z;
      if z != "" {
        ZerosInFront(z[..|z| - 1], "");
        assert z[..|z| - 1] + "" == z[..|z| - 1];
      }
    } else {
      var n := |s| - 1;
      ZerosInFront(z, s[..n]);
      assert (z + s)[..|z + s| - 1] == z + s[..n] && (z + s)[|z + s| - 1] == s[n];
    }
  }
}
