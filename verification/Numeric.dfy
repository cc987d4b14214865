/**
  The `numeric` codec, src/types.rs:564-665 and src/types.rs:866-928: decimal text
  on one side; base-10000 groups, the weight of the first group and a display
  scale on the other.
*/
module Numeric {
  import opened Wrappers
  import opened Decimal
  import opened Bytes
  import Text

  // ------------------------------------------------------------------ decimal text

  datatype NumericText = NaN | PosInf | NegInf | Finite(neg: bool, intPart: string, fracPart: string)

  function PointAt(s: string): (n: nat)
    ensures n <= |s|
    ensures n < |s| ==> s[n] == '.'
  {
    if s == "" || s[0] == '.' then 0 else 1 + PointAt(s[1..])
  }

  /** How `numeric_to_binary` reads its input; `None` where it reports an error. */
  function ReadText(text: string): (r: Option<NumericText>)
    ensures r.Some? && r.value.Finite? ==> AllDigits(r.value.intPart) && AllDigits(r.value.fracPart)
  {
    var t := Text.Trim(text);
    if t == "NaN" then Some(NaN)
    else if t == "Infinity" then Some(PosInf)
    else if t == "-Infinity" then Some(NegInf)
    else ReadFinite("-" <= t, if "-" <= t || "+" <= t then t[1..] else t)
  }

  function ReadFinite(neg: bool, rest: string): (r: Option<NumericText>)
    ensures r.Some? ==> r.value.Finite? && AllDigits(r.value.intPart) && AllDigits(r.value.fracPart)
  {
    var p := PointAt(rest);
    var intPart := rest[..p];
    var fracPart := if p < |rest| then rest[p + 1..] else "";
    if intPart == "" && fracPart == "" then None
    else if !AllDigits(intPart) || !AllDigits(fracPart) then None
    else Some(Finite(neg, intPart, fracPart))
  }

  /** Leading zeros dropped, down to a single `0`. */
  function StripZeros(s: string): string {
    if s == "" then "0"
    else if s[0] == '0' then StripZeros(s[1..])
    else s
  }

  /** The text PostgreSQL would print for a finite value. */
  function Printed(neg: bool, intPart: string, fracPart: string): string {
    (if neg then "-" else "") + StripZeros(intPart) + (if fracPart == "" then "" else "." + fracPart)
  }

  // ------------------------------------------------------------------------ groups

  predicate IsGroup(d: int) { 0 <= d < 10000 }

  ghost predicate AllGroups(gs: seq<int>) { forall i :: 0 <= i < |gs| ==> IsGroup(gs[i]) }

  /** The four decimal digits of a group. */
  function FourDigits(d: int): (s: string)
    requires IsGroup(d)
    ensures |s| == 4 && AllDigits(s)
  {
    [DigitChar(d / 1000), DigitChar(d / 100 % 10), DigitChar(d / 10 % 10), DigitChar(d % 10)]
  }

  lemma FourArithmetic(a: nat, b: nat, c: nat, d: nat)
    requires a < 10 && b < 10 && c < 10 && d < 10
    ensures var v := 1000 * a + 100 * b + 10 * c + d;
      v / 1000 == a && v / 100 == 10 * a + b && v / 10 == 100 * a + 10 * b + c && v % 10 == d
    ensures (10 * a + b) % 10 == b && (100 * a + 10 * b + c) % 10 == c
  {
  }

  lemma FourSplit(s: string)
    requires |s| == 4 && AllDigits(s)
    ensures FromDigits(s) ==
      1000 * DigitValue(s[0]) + 100 * DigitValue(s[1]) + 10 * DigitValue(s[2]) + DigitValue(s[3])
  {
    assert s[..3][..2] == s[..2] && s[..2][..1] == s[..1] && s[..1][..0] == "";
    assert FromDigits(s[..1]) == DigitValue(s[0]);
    assert FromDigits(s[..2]) == 10 * FromDigits(s[..1]) + DigitValue(s[1]);
    assert FromDigits(s[..3]) == 10 * FromDigits(s[..2]) + DigitValue(s[2]);
  }

  lemma FourValue(s: string)
    requires |s| == 4 && AllDigits(s)
    ensures IsGroup(FromDigits(s)) && FourDigits(FromDigits(s)) == s
  {
    FourSplit(s);
    FourArithmetic(DigitValue(s[0]), DigitValue(s[1]), DigitValue(s[2]), DigitValue(s[3]));
  }

  lemma FourValueBack(d: int)
    requires IsGroup(d)
    ensures FromDigits(FourDigits(d)) == d
  {
    FourSplit(FourDigits(d));
    assert d / 100 == 10 * (d / 1000) + d / 100 % 10;
    assert d / 10 == 10 * (d / 100) + d / 10 % 10;
  }

  /** Text cut into groups of four. */
  function Groups(s: string): (gs: seq<int>)
    requires |s| % 4 == 0 && AllDigits(s)
    ensures 4 * |gs| == |s|
  {
    if s == "" then [] else [FromDigits(s[..4])] + Groups(s[4..])
  }

  function GroupText(gs: seq<int>): (s: string)
    requires AllGroups(gs)
    ensures |s| == 4 * |gs| && AllDigits(s)
  {
    if gs == [] then "" else FourDigits(gs[0]) + GroupText(gs[1..])
  }

  lemma {:induction false} GroupsAreGroups(s: string)
    requires |s| % 4 == 0 && AllDigits(s)
    ensures AllGroups(Groups(s)) && GroupText(Groups(s)) == s
  {
    if s != "" {
      GroupsAreGroups(s[4..]);
      FourValue(s[..4]);
      assert s == s[..4] + s[4..];
    }
  }

  lemma {:induction false} GroupsOfText(gs: seq<int>)
    requires AllGroups(gs)
    ensures Groups(GroupText(gs)) == gs
  {
    if gs != [] {
      GroupsOfText(gs[1..]);
      FourValueBack(gs[0]);
      var s := GroupText(gs);
      assert s[..4] == FourDigits(gs[0]) && s[4..] == GroupText(gs[1..]);
    }
  }

  lemma {:induction false} GroupTextConcat(a: seq<int>, b: seq<int>)
    requires AllGroups(a) && AllGroups(b)
    ensures GroupText(a + b) == GroupText(a) + GroupText(b)
  {
    if a == [] {
      assert a + b == b;
    } else {
      GroupTextConcat(a[1..], b);
      assert (a + b)[1..] == a[1..] + b;
    }
  }

  lemma {:induction false} GroupsConcat(a: string, b: string)
    requires |a| % 4 == 0 && AllDigits(a) && |b| % 4 == 0 && AllDigits(b)
    ensures AllDigits(a + b) && Groups(a + b) == Groups(a) + Groups(b)
  {
    if a == "" {
      assert a + b == b;
    } else {
      assert (a + b)[4..] == a[4..] + b && (a + b)[..4] == a[..4];
      GroupsConcat(a[4..], b);
    }
  }

  /** Zeros in front of the integer part up to a multiple of four. */
  function PadInt(s: string): (r: string)
    requires AllDigits(s)
    ensures |r| % 4 == 0 && AllDigits(r)
  {
    Text.Repeat('0', (4 - |s| % 4) % 4) + s
  }

  /** Zeros behind the fraction up to a multiple of four. */
  function PadFrac(s: string): (r: string)
    requires AllDigits(s)
    ensures |r| % 4 == 0 && AllDigits(r) && |s| <= |r| < |s| + 4 && r[..|s|] == s
    ensures forall i :: |s| <= i < |r| ==> r[i] == '0'
  {
    s + Text.Repeat('0', (4 - |s| % 4) % 4)
  }

  // ---------------------------------------------------------------------- encoding

  function LeadingZeros(gs: seq<int>): (n: nat)
    ensures n <= |gs|
    ensures forall i :: 0 <= i < n ==> gs[i] == 0
    ensures n < |gs| ==> gs[n] != 0
  {
    if gs == [] || gs[0] != 0 then 0 else 1 + LeadingZeros(gs[1..])
  }

  function DropTrailing(gs: seq<int>): (r: seq<int>)
    ensures r <= gs
    ensures forall i :: |r| <= i < |gs| ==> gs[i] == 0
    ensures r != [] ==> r[|r| - 1] != 0
  {
    if gs != [] && gs[|gs| - 1] == 0 then DropTrailing(gs[..|gs| - 1]) else gs
  }

  /** A finite value as the wire carries it. */
  datatype Packed = Packed(neg: bool, weight: int, dscale: int, digits: seq<int>)

  function Pack(neg: bool, intPart: string, fracPart: string): Packed
    requires AllDigits(intPart) && AllDigits(fracPart)
  {
    var padded := PadInt(intPart);
    var all := Groups(padded) + Groups(PadFrac(fracPart));
    var lead := LeadingZeros(all);
    var digits := DropTrailing(all[lead..]);
    Packed(neg, if digits == [] then 0 else |padded| / 4 - 1 - lead, |fracPart|, digits)
  }

  /** What the header's 16-bit fields can hold. */
  predicate Fits(p: Packed) { IsI16(p.dscale) && IsI16(p.weight) && IsI16(|p.digits|) }

  function Header(ndigits: int, weight: int, sign: int, dscale: int): (r: seq<byte>)
    requires IsI16(ndigits) && IsI16(weight) && 0 <= sign < 0x1_0000 && IsI16(dscale)
    ensures |r| == 8
  {
    I16(ndigits) + I16(weight) + U16(sign) + I16(dscale)
  }

  const SIGN_POS := 0x0000
  const SIGN_NEG := 0x4000
  const SIGN_NAN := 0xC000
  const SIGN_PINF := 0xD000
  const SIGN_NINF := 0xF000

  function DigitBytes(ds: seq<int>): (r: seq<byte>)
    requires forall i :: 0 <= i < |ds| ==> IsI16(ds[i])
    ensures |r| == 2 * |ds|
  {
    seq(2 * |ds|, k requires 0 <= k < 2 * |ds| => I16(ds[k / 2])[k % 2])
  }

  function PackedBytes(p: Packed): (r: seq<byte>)
    requires Fits(p) && forall i :: 0 <= i < |p.digits| ==> IsI16(p.digits[i])
    ensures |r| == 8 + 2 * |p.digits|
  {
    Header(|p.digits|, p.weight, if p.neg then SIGN_NEG else SIGN_POS, p.dscale) + DigitBytes(p.digits)
  }

  lemma PackGroups(neg: bool, intPart: string, fracPart: string)
    requires AllDigits(intPart) && AllDigits(fracPart)
    ensures AllGroups(Pack(neg, intPart, fracPart).digits)
    ensures forall i :: 0 <= i < |Pack(neg, intPart, fracPart).digits| ==> IsI16(Pack(neg, intPart, fracPart).digits[i])
  {
    GroupsAreGroups(PadInt(intPart));
    GroupsAreGroups(PadFrac(fracPart));
  }

  // ---------------------------------------------------------------------- decoding

  /** `digits.get(i).copied().unwrap_or(0)`, and 0 in front of the first group. */
  function Get(ds: seq<int>, i: int): int { if 0 <= i < |ds| then ds[i] else 0 }

  /** `format!("{d:04}")` */
  function Fmt04(d: int): (s: string)
    ensures |s| >= 4
  {
    if d >= 0 then PadTo(ToDecimal(d), 4) else "-" + PadTo(ToDecimal(-d), 3)
  }

  function PadTo(s: string, width: nat): (r: string)
    ensures |r| >= width
  {
    if |s| >= width then s else Text.Repeat('0', width - |s|) + s
  }

  /** `d.to_string()` */
  function Fmt(d: int): string { if d >= 0 then ToDecimal(d) else "-" + ToDecimal(-d) }

  /** Groups `i` to `weight`, four characters each. */
  function IntTail(ds: seq<int>, i: int, weight: int): string
    decreases weight + 1 - i
  {
    if i > weight then "" else Fmt04(Get(ds, i)) + IntTail(ds, i + 1, weight)
  }

  function IntText(ds: seq<int>, weight: int): string {
    if weight < 0 then "0" else Fmt(Get(ds, 0)) + IntTail(ds, 1, weight)
  }

  /** Groups from `i` on until there are at least `need` characters. */
  function FracFrom(ds: seq<int>, i: int, need: int): (s: string)
    ensures |s| >= need
    decreases need
  {
    if need <= 0 then "" else
    var g := Fmt04(Get(ds, i));
    g + FracFrom(ds, i + 1, need - |g|)
  }

  function PackedText(p: Packed): string
    requires p.dscale >= 0
  {
    (if p.neg then "-" else "") + IntText(p.digits, p.weight) +
    (if p.dscale == 0 then "" else "." + FracFrom(p.digits, p.weight + 1, p.dscale)[..p.dscale])
  }

  // ------------------------------------------------- what the packed groups stand for

  /** The groups at positions `i` to `i + n - 1`, zeros outside `ds`. */
  function Window(ds: seq<int>, i: int, n: nat): (r: seq<int>)
    ensures |r| == n
    ensures forall j :: 0 <= j < n ==> r[j] == Get(ds, i + j)
    decreases n
  {
    if n == 0 then [] else [Get(ds, i)] + Window(ds, i + 1, n - 1)
  }

  lemma WindowGroups(ds: seq<int>, i: int, n: nat)
    requires AllGroups(ds)
    ensures AllGroups(Window(ds, i, n))
  {
    forall j | 0 <= j < n ensures IsGroup(Window(ds, i, n)[j]) {
    }
  }

  lemma Fmt04Group(d: int)
    requires IsGroup(d)
    ensures Fmt04(d) == FourDigits(d)
  {
    if d < 10 {
      assert Text.Repeat('0', 3) == "000";
    } else if d < 100 {
      assert ToDecimal(d) == ToDecimal(d / 10) + [DigitChar(d % 10)];
      hide ToDecimal;
      assert Text.Repeat('0', 2) == "00";
    } else if d < 1000 {
      assert ToDecimal(d) == ToDecimal(d / 10) + [DigitChar(d % 10)];
      assert ToDecimal(d / 10) == ToDecimal(d / 100) + [DigitChar(d / 10 % 10)];
      hide ToDecimal;
      assert Text.Repeat('0', 1) == "0";
    } else {
      DecimalFour(d);
    }
  }

  lemma DecimalFour(d: int)
    requires 1000 <= d < 10000
    ensures ToDecimal(d) == FourDigits(d)
  {
    assert ToDecimal(d) == ToDecimal(d / 10) + [DigitChar(d % 10)];
    assert ToDecimal(d / 10) == ToDecimal(d / 10 / 10) + [DigitChar(d / 10 % 10)];
    assert ToDecimal(d / 100) == ToDecimal(d / 100 / 10) + [DigitChar(d / 100 % 10)];
    assert d / 10 / 10 == d / 100 && d / 100 / 10 == d / 1000;
  }

  lemma {:induction false} IntTailIsText(ds: seq<int>, i: nat, weight: int)
    requires AllGroups(ds) && i <= weight + 1
    ensures AllGroups(Window(ds, i, weight + 1 - i))
    ensures IntTail(ds, i, weight) == GroupText(Window(ds, i, weight + 1 - i))
    decreases weight + 1 - i
  {
    WindowGroups(ds, i, weight + 1 - i);
    if i <= weight {
      hide FourDigits, Fmt04;
      IntTailIsText(ds, i + 1, weight);
      Fmt04Group(Get(ds, i));
      WindowStep(ds, i, weight + 1 - i);
    }
  }

  function CeilFour(n: nat): nat { (n + 3) / 4 }

  lemma {:induction false} FracFromIsText(ds: seq<int>, i: int, need: nat)
    requires AllGroups(ds)
    ensures AllGroups(Window(ds, i, CeilFour(need)))
    ensures FracFrom(ds, i, need) == GroupText(Window(ds, i, CeilFour(need)))
    decreases need
  {
    WindowGroups(ds, i, CeilFour(need));
    if need > 0 {
      hide FracFrom, GroupText, Window, FourDigits;
      var n, later := CeilFour(need), if need > 4 then need - 4 else 0;
      assert CeilFour(later) == n - 1;
      hide CeilFour;
      FracFromIsText(ds, i + 1, later);
      FracStep(ds, i, need);
      WindowStep(ds, i, n);
    }
  }

  lemma FracStep(ds: seq<int>, i: int, need: nat)
    requires need > 0 && AllGroups(ds)
    ensures FracFrom(ds, i, need) == FourDigits(Get(ds, i)) + FracFrom(ds, i + 1, if need > 4 then need - 4 else 0)
  {
    hide FourDigits, Fmt04;
    Fmt04Group(Get(ds, i));
  }

  lemma WindowStep(ds: seq<int>, i: int, n: nat)
    requires n > 0 && AllGroups(Window(ds, i, n)) && AllGroups(Window(ds, i + 1, n - 1)) && IsGroup(Get(ds, i))
    ensures GroupText(Window(ds, i, n)) == FourDigits(Get(ds, i)) + GroupText(Window(ds, i + 1, n - 1))
  {
    hide FourDigits;
    assert Window(ds, i, n)[1..] == Window(ds, i + 1, n - 1);
  }

  lemma PackedGet(all: seq<int>, k: int)
    ensures Get(DropTrailing(all[LeadingZeros(all)..]), k) == Get(all, k + LeadingZeros(all))
  {
    var lead := LeadingZeros(all);
    var rest := all[lead..];
    var ds := DropTrailing(rest);
    if 0 <= k < |rest| {
      assert rest[k] == all[k + lead];
      if k < |ds| {
        assert ds[k] == rest[k];
      }
    }
  }

  lemma PackedEmpty(all: seq<int>, k: int)
    requires DropTrailing(all[LeadingZeros(all)..]) == []
    ensures Get(all, k) == 0
  {
    PackedGet(all, k - LeadingZeros(all));
  }

  /** A window of the packed digits is a stretch of the groups they came from. */
  lemma PackedWindow(all: seq<int>, i: int, n: nat)
    requires 0 <= i + LeadingZeros(all) && i + LeadingZeros(all) + n <= |all|
    ensures var lead := LeadingZeros(all);
      Window(DropTrailing(all[lead..]), i, n) == all[i + lead..i + lead + n]
  {
    var lead := LeadingZeros(all);
    forall j | 0 <= j < n ensures Window(DropTrailing(all[lead..]), i, n)[j] == all[i + lead..i + lead + n][j] {
      PackedGet(all, i + j);
    }
  }

  lemma {:induction false} StripZeroPrefix(z: string, u: string)
    requires forall i :: 0 <= i < |z| ==> z[i] == '0'
    ensures StripZeros(z + u) == StripZeros(u)
  {
    if z == "" {
      assert z + u == u;
    } else {
      StripZeroPrefix(z[1..], u);
      assert (z + u)[1..] == z[1..] + u;
    }
  }

  lemma StripPadInt(s: string)
    requires AllDigits(s)
    ensures StripZeros(PadInt(s)) == StripZeros(s)
  {
    StripZeroPrefix(Text.Repeat('0', (4 - |s| % 4) % 4), s);
  }

  /** A group with its leading zeros dropped is its plain decimal form. */
  lemma StripGroup(d: int, u: string)
    requires 0 < d < 10000
    ensures StripZeros(FourDigits(d) + u) == ToDecimal(d) + u
  {
    var zeros := if d < 10 then 3 else if d < 100 then 2 else if d < 1000 then 1 else 0;
    var z, short := Text.Repeat('0', zeros), ToDecimal(d);
    assert FourDigits(d) == z + short by {
      Fmt04Group(d);
      DecimalLength(d);
    }
    assert FourDigits(d) + u == z + (short + u);
    StripZeroPrefix(z, short + u);
  }

  lemma DecimalLength(d: int)
    requires 0 < d < 10000
    ensures |ToDecimal(d)| == if d < 10 then 1 else if d < 100 then 2 else if d < 1000 then 3 else 4
  {
    if d >= 10 {
      assert |ToDecimal(d)| == |ToDecimal(d / 10)| + 1;
      if d >= 100 {
        assert |ToDecimal(d / 10)| == |ToDecimal(d / 10 / 10)| + 1;
      }
    }
  }

  lemma {:induction false} ZeroGroupText(gs: seq<int>)
    requires forall i :: 0 <= i < |gs| ==> gs[i] == 0
    ensures AllGroups(gs) && forall i :: 0 <= i < |GroupText(gs)| ==> GroupText(gs)[i] == '0'
  {
    if gs != [] {
      ZeroGroupText(gs[1..]);
    }
  }

  /** Printing groups as an integer drops the zeros in front. */
  lemma StripGroups(gs: seq<int>, lead: nat)
    requires AllGroups(gs) && lead <= |gs|
    requires forall i :: 0 <= i < lead ==> gs[i] == 0
    requires lead < |gs| ==> gs[lead] != 0
    ensures AllGroups(gs[lead..]) && (lead < |gs| ==> AllGroups(gs[lead + 1..]))
    ensures StripZeros(GroupText(gs)) ==
      if lead == |gs| then "0" else ToDecimal(gs[lead]) + GroupText(gs[lead + 1..])
  {
    hide FourDigits, ToDecimal, GroupText, StripZeros;
    var zeros, rest := gs[..lead], gs[lead..];
    assert gs == zeros + rest;
    StripZeroGroups(zeros, rest);
    StripFirstGroup(rest);
    if lead < |gs| {
      assert rest[1..] == gs[lead + 1..];
    }
  }

  lemma StripFirstGroup(gs: seq<int>)
    requires AllGroups(gs) && (gs != [] ==> gs[0] != 0)
    ensures StripZeros(GroupText(gs)) == if gs == [] then "0" else ToDecimal(gs[0]) + GroupText(gs[1..])
  {
    if gs != [] {
      StripGroup(gs[0], GroupText(gs[1..]));
    }
  }

  lemma StripZeroGroups(zeros: seq<int>, rest: seq<int>)
    requires AllGroups(rest)
    requires forall i :: 0 <= i < |zeros| ==> zeros[i] == 0
    ensures AllGroups(zeros + rest) && StripZeros(GroupText(zeros + rest)) == StripZeros(GroupText(rest))
  {
    ZeroGroupText(zeros);
    GroupTextConcat(zeros, rest);
    StripZeroPrefix(GroupText(zeros), GroupText(rest));
  }

  /** The digits and weight that `a`, the groups before the point, and `b`, the
      groups after it, pack into. */
  function PackedDigits(a: seq<int>, b: seq<int>): seq<int> {
    var all := a + b;
    DropTrailing(all[LeadingZeros(all)..])
  }

  function PackedWeight(a: seq<int>, b: seq<int>): int {
    if PackedDigits(a, b) == [] then 0 else |a| - 1 - LeadingZeros(a + b)
  }

  lemma PackedDigitsAreGroups(a: seq<int>, b: seq<int>)
    requires AllGroups(a) && AllGroups(b)
    ensures AllGroups(PackedDigits(a, b))
  {
  }

  lemma ZeroBeforePoint(a: seq<int>, b: seq<int>)
    requires AllGroups(a) && AllGroups(b)
    requires PackedDigits(a, b) == [] || LeadingZeros(a + b) >= |a|
    ensures StripZeros(GroupText(a)) == "0" && IntText(PackedDigits(a, b), PackedWeight(a, b)) == "0"
  {
    var all := a + b;
    forall i | 0 <= i < |a| ensures a[i] == 0 {
      if PackedDigits(a, b) == [] {
        PackedEmpty(all, i);
      }
      assert all[i] == a[i];
    }
    StripGroups(a, |a|);
  }

  lemma IntOfGroups(a: seq<int>, b: seq<int>)
    requires AllGroups(a) && AllGroups(b)
    ensures IntText(PackedDigits(a, b), PackedWeight(a, b)) == StripZeros(GroupText(a))
  {
    var all, lead := a + b, LeadingZeros(a + b);
    if PackedDigits(a, b) == [] || lead >= |a| {
      ZeroBeforePoint(a, b);
    } else {
      IntOfLeadingGroup(a, b, lead);
    }
  }

  lemma IntOfLeadingGroup(a: seq<int>, b: seq<int>, lead: nat)
    requires AllGroups(a) && AllGroups(b)
    requires PackedDigits(a, b) != [] && lead == LeadingZeros(a + b) < |a|
    ensures IntText(PackedDigits(a, b), PackedWeight(a, b)) == StripZeros(GroupText(a))
  {
    hide LeadingZeros, StripZeros, ToDecimal, GroupText, PackedDigits, IntTail;
    HeadOfLeadingGroup(a, b, lead);
    TailOfLeadingGroup(a, b, lead);
    StripGroups(a, lead);
  }

  lemma TailOfLeadingGroup(a: seq<int>, b: seq<int>, lead: nat)
    requires AllGroups(a) && AllGroups(b)
    requires PackedDigits(a, b) != [] && lead == LeadingZeros(a + b) < |a|
    ensures AllGroups(a[lead + 1..])
    ensures IntTail(PackedDigits(a, b), 1, PackedWeight(a, b)) == GroupText(a[lead + 1..])
  {
    hide LeadingZeros, DropTrailing, GroupText, IntTail, Window;
    var all, weight := a + b, PackedWeight(a, b);
    PackedDigitsAreGroups(a, b);
    IntTailIsText(PackedDigits(a, b), 1, weight);
    PackedWindow(all, 1, weight);
    assert all[1 + lead..1 + lead + weight] == a[lead + 1..];
  }

  lemma HeadOfLeadingGroup(a: seq<int>, b: seq<int>, lead: nat)
    requires PackedDigits(a, b) != [] && lead == LeadingZeros(a + b) < |a|
    ensures Get(PackedDigits(a, b), 0) == a[lead] != 0
    ensures forall i :: 0 <= i < lead ==> a[i] == 0
  {
    var all := a + b;
    PackedGet(all, 0);
    assert forall i :: 0 <= i <= lead ==> a[i] == all[i];
  }

  lemma FracOfNothing(a: seq<int>, b: seq<int>)
    requires PackedDigits(a, b) == []
    ensures Window([], 1, |b|) == b
  {
    var all := a + b;
    forall j | 0 <= j < |b| ensures Window([], 1, |b|)[j] == b[j] {
      PackedEmpty(all, |a| + j);
      assert all[|a| + j] == b[j];
    }
  }

  lemma FracOfSome(all: seq<int>, b: seq<int>, at: nat)
    requires at + |b| == |all| && all[at..] == b
    ensures Window(DropTrailing(all[LeadingZeros(all)..]), at - LeadingZeros(all), |b|) == b
  {
    hide LeadingZeros, DropTrailing, Window;
    var i := at - LeadingZeros(all);
    PackedWindow(all, i, |b|);
    assert i + LeadingZeros(all) == at;
    assert all[at..at + |b|] == all[at..];
  }

  lemma FracOfGroups(a: seq<int>, b: seq<int>)
    ensures Window(PackedDigits(a, b), PackedWeight(a, b) + 1, |b|) == b
  {
    if PackedDigits(a, b) == [] {
      FracOfNothing(a, b);
    } else {
      FracOfDigits(a, b);
    }
  }

  lemma FracOfDigits(a: seq<int>, b: seq<int>)
    requires PackedDigits(a, b) != []
    ensures Window(PackedDigits(a, b), PackedWeight(a, b) + 1, |b|) == b
  {
    hide LeadingZeros, DropTrailing, Window;
    assert (a + b)[|a|..] == b;
    FracOfSome(a + b, b, |a|);
  }

  lemma PackIsPacked(neg: bool, intPart: string, fracPart: string)
    requires AllDigits(intPart) && AllDigits(fracPart)
    ensures var a, b := Groups(PadInt(intPart)), Groups(PadFrac(fracPart));
      && Pack(neg, intPart, fracPart) == Packed(neg, PackedWeight(a, b), |fracPart|, PackedDigits(a, b))
      && AllGroups(a) && AllGroups(b)
      && GroupText(a) == PadInt(intPart) && GroupText(b) == PadFrac(fracPart)
  {
    GroupsAreGroups(PadInt(intPart));
    GroupsAreGroups(PadFrac(fracPart));
  }

  lemma PackFracText(a: seq<int>, b: seq<int>, fracPart: string)
    requires AllDigits(fracPart) && AllGroups(a) && AllGroups(b) && GroupText(b) == PadFrac(fracPart)
    ensures FracFrom(PackedDigits(a, b), PackedWeight(a, b) + 1, |fracPart|)[..|fracPart|] == fracPart
  {
    PackedDigitsAreGroups(a, b);
    FracFromIsText(PackedDigits(a, b), PackedWeight(a, b) + 1, |fracPart|);
    assert CeilFour(|fracPart|) == |b|;
    FracOfGroups(a, b);
  }

  lemma PackedParts(a: seq<int>, b: seq<int>, intPart: string, fracPart: string)
    requires AllDigits(intPart) && AllDigits(fracPart) && AllGroups(a) && AllGroups(b)
    requires GroupText(a) == PadInt(intPart) && GroupText(b) == PadFrac(fracPart)
    ensures IntText(PackedDigits(a, b), PackedWeight(a, b)) == StripZeros(intPart)
    ensures FracFrom(PackedDigits(a, b), PackedWeight(a, b) + 1, |fracPart|)[..|fracPart|] == fracPart
  {
    IntOfGroups(a, b);
    StripPadInt(intPart);
    PackFracText(a, b, fracPart);
  }

  lemma PrintedParts(p: Packed, neg: bool, intPart: string, fracPart: string)
    requires p.neg == neg && p.dscale == |fracPart|
    requires IntText(p.digits, p.weight) == StripZeros(intPart)
    requires FracFrom(p.digits, p.weight + 1, |fracPart|)[..|fracPart|] == fracPart
    ensures PackedText(p) == Printed(neg, intPart, fracPart)
  {
  }

  /** Packing decimal text and printing it again gives the sign, the integer part
      without leading zeros and exactly the same fraction digits. */
  lemma PackThenPrint(neg: bool, intPart: string, fracPart: string)
    requires AllDigits(intPart) && AllDigits(fracPart)
    ensures PackedText(Pack(neg, intPart, fracPart)) == Printed(neg, intPart, fracPart)
  {
    PackIsPacked(neg, intPart, fracPart);
    PackedParts(Groups(PadInt(intPart)), Groups(PadFrac(fracPart)), intPart, fracPart);
    PrintedParts(Pack(neg, intPart, fracPart), neg, intPart, fracPart);
  }

  // ------------------------------------------------------------ canonical encodings

  /** The `k`th decimal digit after the point. */
  function FractionDigit(ds: seq<int>, weight: int, k: nat): char
    requires IsGroup(Get(ds, weight + 1 + k / 4))
  {
    FourDigits(Get(ds, weight + 1 + k / 4))[k % 4]
  }

  /** What the server itself sends: no zero group at either end, weight 0 for zero,
      and a display scale that covers the last non-zero fraction digit. */
  ghost predicate Canonical(p: Packed) {
    && AllGroups(p.digits)
    && (p.digits == [] ==> p.weight == 0)
    && (p.digits != [] ==> p.digits[0] != 0 && p.digits[|p.digits| - 1] != 0)
    && p.dscale >= 0
    && forall k: nat :: k >= p.dscale ==> FractionDigit(p.digits, p.weight, k) == '0'
  }

  /** Everything past the groups the display scale asks for is zero. */
  lemma ScaleCovers(p: Packed)
    requires Canonical(p) && p.digits != []
    ensures |p.digits| <= p.weight + 1 + CeilFour(p.dscale) || |p.digits| <= p.weight + 1
  {
    var last := |p.digits| - 1;
    var j := last - p.weight - 1;
    if j >= 0 {
      var r := NonZeroDigit(p.digits[last]);
      var k := 4 * j + r;
      assert k / 4 == j && k % 4 == r;
      assert FractionDigit(p.digits, p.weight, k) == FourDigits(p.digits[last])[r];
    }
  }

  lemma NonZeroDigit(d: int) returns (r: nat)
    requires 0 < d < 10000
    ensures r < 4 && FourDigits(d)[r] != '0'
  {
    if d >= 1000 {
      r := 0;
    } else if d >= 100 {
      r := 1;
    } else if d >= 10 {
      r := 2;
    } else {
      r := 3;
    }
  }

  lemma {:induction false} LeadingZerosIs(gs: seq<int>, z: nat)
    requires z <= |gs|
    requires forall i :: 0 <= i < z ==> gs[i] == 0
    requires z < |gs| ==> gs[z] != 0
    ensures LeadingZeros(gs) == z
  {
  }

  lemma {:induction false} DropTrailingIs(gs: seq<int>, ds: seq<int>)
    requires ds <= gs
    requires ds != [] ==> ds[|ds| - 1] != 0
    requires forall i :: |ds| <= i < |gs| ==> gs[i] == 0
    ensures DropTrailing(gs) == ds
  {
    if |ds| < |gs| {
      DropTrailingIs(gs[..|gs| - 1], ds);
    }
  }

  /** Zeros around `ds` are exactly what packing takes off. */
  lemma StripAround(all: seq<int>, ds: seq<int>, z: nat)
    requires z + |ds| <= |all|
    requires forall i :: 0 <= i < |all| ==> all[i] == Get(ds, i - z)
    requires ds != [] && ds[0] != 0 && ds[|ds| - 1] != 0
    ensures LeadingZeros(all) == z && DropTrailing(all[z..]) == ds
  {
    LeadingZerosIs(all, z);
    DropTrailingIs(all[z..], ds);
  }

  lemma StripAll(all: seq<int>)
    requires forall i :: 0 <= i < |all| ==> all[i] == 0
    ensures DropTrailing(all[LeadingZeros(all)..]) == []
  {
    DropTrailingIs(all[LeadingZeros(all)..], []);
  }

  function FracText(p: Packed): string
    requires p.dscale >= 0
  {
    FracFrom(p.digits, p.weight + 1, p.dscale)[..p.dscale]
  }

  /** Padding the printed fraction restores the digits the scale cut off. */
  lemma FracGroups(p: Packed)
    requires Canonical(p)
    ensures AllDigits(FracText(p))
    ensures Groups(PadFrac(FracText(p))) == Window(p.digits, p.weight + 1, CeilFour(p.dscale))
  {
    var w := Window(p.digits, p.weight + 1, CeilFour(p.dscale));
    FracFromIsText(p.digits, p.weight + 1, p.dscale);
    CutTailIsZero(p, w);
    PadFracIs(GroupText(w), p.dscale);
    GroupsOfText(w);
  }

  lemma CutTailIsZero(p: Packed, w: seq<int>)
    requires Canonical(p) && w == Window(p.digits, p.weight + 1, CeilFour(p.dscale)) && AllGroups(w)
    ensures forall k :: p.dscale <= k < |GroupText(w)| ==> GroupText(w)[k] == '0'
  {
    forall k | p.dscale <= k < |GroupText(w)| ensures GroupText(w)[k] == '0' {
      GroupTextAt(w, k);
      assert FractionDigit(p.digits, p.weight, k) == '0';
    }
  }

  lemma PadFracIs(full: string, n: nat)
    requires AllDigits(full) && |full| % 4 == 0 && n <= |full| < n + 4
    requires forall k :: n <= k < |full| ==> full[k] == '0'
    ensures PadFrac(full[..n]) == full
  {
  }

  lemma {:induction false} GroupTextAt(gs: seq<int>, k: nat)
    requires AllGroups(gs) && k < 4 * |gs|
    ensures GroupText(gs)[k] == FourDigits(gs[k / 4])[k % 4]
  {
    if k >= 4 {
      GroupTextAt(gs[1..], k - 4);
      assert GroupText(gs)[k] == GroupText(gs[1..])[k - 4];
      assert (k - 4) / 4 == k / 4 - 1 && (k - 4) % 4 == k % 4;
    }
  }

  lemma ZeroGroup()
    ensures AllDigits("0") && Groups(PadInt("0")) == [0]
  {
    assert Text.Repeat('0', 3) == "000" && "000" + "0" == "0000";
    FourSplit("0000");
    assert "0000"[..4] == "0000" && "0000"[4..] == "";
  }

  lemma PadIntGroup(d: int, t: string)
    requires 0 < d < 10000 && AllDigits(t) && |t| % 4 == 0
    ensures PadInt(ToDecimal(d) + t) == FourDigits(d) + t
  {
    hide ToDecimal, FourDigits;
    Fmt04Group(d);
    DecimalLength(d);
    assert |ToDecimal(d) + t| % 4 == |ToDecimal(d)| % 4;
    var z := Text.Repeat('0', 4 - |ToDecimal(d)|);
    assert z + (ToDecimal(d) + t) == (z + ToDecimal(d)) + t;
  }

  lemma LeadGroups(p: Packed)
    requires Canonical(p) && p.weight >= 0 && p.digits != []
    ensures AllDigits(IntText(p.digits, p.weight))
    ensures Groups(PadInt(IntText(p.digits, p.weight))) == Window(p.digits, 0, p.weight + 1)
  {
    hide FourDigits, ToDecimal, PadInt, Groups, IntTail;
    var d, tail := p.digits[0], Window(p.digits, 1, p.weight);
    IntTailIsText(p.digits, 1, p.weight);
    PadIntGroup(d, GroupText(tail));
    var gs := [d] + tail;
    assert gs[1..] == tail;
    GroupsOfText(gs);
    assert gs == Window(p.digits, 0, p.weight + 1);
  }

  /** Padding the printed integer part restores its first group. */
  lemma IntGroups(p: Packed)
    requires Canonical(p)
    ensures AllDigits(IntText(p.digits, p.weight))
    ensures Groups(PadInt(IntText(p.digits, p.weight))) ==
      if p.weight < 0 || p.digits == [] then [0] else Window(p.digits, 0, p.weight + 1)
  {
    if p.weight < 0 || p.digits == [] {
      assert IntText(p.digits, p.weight) == "0";
      ZeroGroup();
    } else {
      LeadGroups(p);
    }
  }

  /** Printing a canonical value and packing the text again is the identity. */
  lemma PrintThenPack(p: Packed)
    requires Canonical(p)
    ensures AllDigits(IntText(p.digits, p.weight)) && AllDigits(FracText(p))
    ensures Pack(p.neg, IntText(p.digits, p.weight), FracText(p)) == p
  {
    var i, f := IntText(p.digits, p.weight), FracText(p);
    IntGroups(p);
    FracGroups(p);
    PackIsPacked(p.neg, i, f);
    Repacked(p, Groups(PadInt(i)), Groups(PadFrac(f)));
  }

  lemma Repacked(p: Packed, a: seq<int>, b: seq<int>)
    requires Canonical(p)
    requires a == if p.weight < 0 || p.digits == [] then [0] else Window(p.digits, 0, p.weight + 1)
    requires b == Window(p.digits, p.weight + 1, CeilFour(p.dscale))
    ensures PackedDigits(a, b) == p.digits && PackedWeight(a, b) == p.weight
  {
    hide LeadingZeros, DropTrailing, Window, FourDigits;
    var all := a + b;
    if p.digits == [] {
      StripAll(all);
    } else {
      var z := if p.weight < 0 then -p.weight else 0;
      ScaleCovers(p);
      forall i | 0 <= i < |all| ensures all[i] == Get(p.digits, i - z) {
        if i < |a| {
          assert all[i] == a[i];
        } else {
          assert all[i] == b[i - |a|];
        }
      }
      StripAround(all, p.digits, z);
    }
  }
}
