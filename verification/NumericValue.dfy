/**
  The number a packed `numeric` stands for, as a sum of base-10000 digits, equals
  the number its decimal text stands for.
*/
module NumericValue {
  import opened Wrappers
  import opened Decimal
  import opened Numeric
  import Text

  /** `x` times 10 to the `e`, which may be negative. */
  function Shift(x: real, e: int): real
    decreases if e < 0 then -e else e
  {
    if e == 0 then x
    else if e > 0 then 10.0 * Shift(x, e - 1)
    else Shift(x, e + 1) / 10.0
  }

  /** The sum of `ds[i]` times 10000 to the `weight - i`. */
  function GroupSum(ds: seq<int>, weight: int): real
    decreases |ds|
  {
    if ds == [] then 0.0 else Shift(ds[0] as real, 4 * weight) + GroupSum(ds[1..], weight - 1)
  }

  /** The number that decimal digits around a point denote. */
  function DecimalValue(intPart: string, fracPart: string): real
    requires AllDigits(intPart) && AllDigits(fracPart)
  {
    Shift(FromDigits(intPart + fracPart) as real, -|fracPart|)
  }

  // ------------------------------------------------------------------------ shifts

  lemma ShiftStep(x: real, e: int)
    ensures Shift(x, e + 1) == 10.0 * Shift(x, e)
  {
  }

  lemma {:induction false} ShiftTwice(x: real, m: int, n: int)
    ensures Shift(Shift(x, m), n) == Shift(x, m + n)
    decreases if n < 0 then -n else n
  {
    if n > 0 {
      ShiftTwice(x, m, n - 1);
      ShiftStep(x, m + n - 1);
    } else if n < 0 {
      ShiftTwice(x, m, n + 1);
      ShiftStep(x, m + n);
    }
  }

  lemma {:induction false} ShiftSum(x: real, y: real, e: int)
    ensures Shift(x + y, e) == Shift(x, e) + Shift(y, e)
    decreases if e < 0 then -e else e
  {
    if e > 0 {
      ShiftSum(x, y, e - 1);
    } else if e < 0 {
      ShiftSum(x, y, e + 1);
    }
  }

  lemma {:induction false} ShiftZero(e: int)
    ensures Shift(0.0, e) == 0.0
    decreases if e < 0 then -e else e
  {
    if e > 0 {
      ShiftZero(e - 1);
    } else if e < 0 {
      ShiftZero(e + 1);
    }
  }

  // ------------------------------------------------------------------------ digits

  lemma LastDigit(s: string)
    requires s != "" && AllDigits(s)
    ensures FromDigits(s) as real == 10.0 * FromDigits(s[..|s| - 1]) as real + DigitValue(s[|s| - 1]) as real
  {
  }

  lemma {:induction false} FromDigitsConcat(a: string, b: string)
    requires AllDigits(a) && AllDigits(b)
    ensures FromDigits(a + b) as real == Shift(FromDigits(a) as real, |b|) + FromDigits(b) as real
  {
    var s := a + b;
    if b == "" {
      assert s == a;
    } else {
      var m := |b| - 1;
      FromDigitsConcat(a, b[..m]);
      assert s[..|s| - 1] == a + b[..m] && s[|s| - 1] == b[m];
      LastDigit(s);
      LastDigit(b);
      ShiftStep(FromDigits(a) as real, m);
    }
  }

  lemma {:induction false} ZeroDigits(z: string)
    requires forall i :: 0 <= i < |z| ==> z[i] == '0'
    ensures FromDigits(z) == 0
  {
    if z != "" {
      ZeroDigits(z[..|z| - 1]);
    }
  }

  /** Zeros in front change nothing; each zero behind multiplies by ten. */
  lemma PaddedValue(intPart: string, fracPart: string)
    requires AllDigits(intPart) && AllDigits(fracPart)
    ensures FromDigits(PadInt(intPart) + PadFrac(fracPart)) as real ==
      Shift(FromDigits(intPart + fracPart) as real, |PadFrac(fracPart)| - |fracPart|)
  {
    hide FromDigits, Shift;
    var z, u := Text.Repeat('0', (4 - |intPart| % 4) % 4), Text.Repeat('0', (4 - |fracPart| % 4) % 4);
    var s := intPart + fracPart;
    assert PadInt(intPart) + PadFrac(fracPart) == z + (s + u);
    ZeroDigits(z);
    ZeroDigits(u);
    FromDigitsConcat(z, s + u);
    FromDigitsConcat(s, u);
    ShiftZero(|s + u|);
  }

  // ------------------------------------------------------------------- group sums

  lemma GroupTextValue(gs: seq<int>)
    requires AllGroups(gs) && gs != []
    ensures FromDigits(GroupText(gs)) as real ==
      Shift(gs[0] as real, 4 * (|gs| - 1)) + FromDigits(GroupText(gs[1..])) as real
  {
    FromDigitsConcat(FourDigits(gs[0]), GroupText(gs[1..]));
    FourValueBack(gs[0]);
  }

  /** A run of groups is worth its digits, scaled by the weight of its last group. */
  lemma {:induction false} GroupSumText(gs: seq<int>, weight: int)
    requires AllGroups(gs)
    ensures GroupSum(gs, weight) == Shift(FromDigits(GroupText(gs)) as real, 4 * (weight + 1 - |gs|))
  {
    var e := 4 * (weight + 1 - |gs|);
    if gs == [] {
      ShiftZero(e);
    } else {
      GroupSumText(gs[1..], weight - 1);
      GroupTextValue(gs);
      var head, tail := Shift(gs[0] as real, 4 * (|gs| - 1)), FromDigits(GroupText(gs[1..])) as real;
      ShiftSum(head, tail, e);
      ShiftTwice(gs[0] as real, 4 * (|gs| - 1), e);
    }
  }

  lemma {:induction false} LeadingZerosWorthless(gs: seq<int>, lead: nat, weight: int)
    requires lead <= |gs| && forall i :: 0 <= i < lead ==> gs[i] == 0
    ensures GroupSum(gs, weight) == GroupSum(gs[lead..], weight - lead)
    decreases lead
  {
    if lead == 0 {
      assert gs[0..] == gs;
    } else {
      LeadingZerosWorthless(gs[1..], lead - 1, weight - 1);
      assert gs[1..][lead - 1..] == gs[lead..];
      ShiftZero(4 * weight);
    }
  }

  lemma {:induction false} ZeroSum(gs: seq<int>, weight: int)
    requires forall i :: 0 <= i < |gs| ==> gs[i] == 0
    ensures GroupSum(gs, weight) == 0.0
  {
    if gs != [] {
      ZeroSum(gs[1..], weight - 1);
      ShiftZero(4 * weight);
    }
  }

  lemma {:induction false} TrailingZerosWorthless(gs: seq<int>, ds: seq<int>, weight: int)
    requires ds <= gs && forall i :: |ds| <= i < |gs| ==> gs[i] == 0
    ensures GroupSum(gs, weight) == GroupSum(ds, weight)
  {
    if ds == [] {
      ZeroSum(gs, weight);
    } else {
      TrailingZerosWorthless(gs[1..], ds[1..], weight - 1);
    }
  }

  /** The zero groups that packing drops are worth nothing. */
  lemma DroppedGroupsWorthless(a: seq<int>, b: seq<int>)
    ensures GroupSum(PackedDigits(a, b), PackedWeight(a, b)) == GroupSum(a + b, |a| - 1)
  {
    var all := a + b;
    var lead := LeadingZeros(all);
    LeadingZerosWorthless(all, lead, |a| - 1);
    TrailingZerosWorthless(all[lead..], PackedDigits(a, b), |a| - 1 - lead);
  }

  lemma PaddedShift(intPart: string, fracPart: string)
    requires AllDigits(intPart) && AllDigits(fracPart)
    ensures Shift(FromDigits(PadInt(intPart) + PadFrac(fracPart)) as real, -|PadFrac(fracPart)|)
      == DecimalValue(intPart, fracPart)
  {
    PaddedValue(intPart, fracPart);
    ShiftTwice(FromDigits(intPart + fracPart) as real, |PadFrac(fracPart)| - |fracPart|, -|PadFrac(fracPart)|);
  }

  /** The groups of a text scale to its value: `text` is the padded digits. */
  lemma AllGroupsValue(groups: seq<int>, weight: int, intPart: string, fracPart: string, text: string)
    requires AllDigits(intPart) && AllDigits(fracPart) && AllGroups(groups)
    requires text == PadInt(intPart) + PadFrac(fracPart) && GroupText(groups) == text
    requires 4 * (weight + 1 - |groups|) == -|PadFrac(fracPart)|
    ensures GroupSum(groups, weight) == DecimalValue(intPart, fracPart)
  {
    PaddedShift(intPart, fracPart);
    GroupSumText(groups, weight);
  }

  /** The value of the packed digits is the value of the text, exactly, whatever
      zero groups packing dropped at either end. */
  lemma PackedValue(neg: bool, intPart: string, fracPart: string)
    requires AllDigits(intPart) && AllDigits(fracPart)
    ensures var p := Pack(neg, intPart, fracPart);
      GroupSum(p.digits, p.weight) == DecimalValue(intPart, fracPart)
  {
    var a, b := Groups(PadInt(intPart)), Groups(PadFrac(fracPart));
    PackIsPacked(neg, intPart, fracPart);
    DroppedGroupsWorthless(a, b);
    GroupTextConcat(a, b);
    AllGroupsValue(a + b, |a| - 1, intPart, fracPart, PadInt(intPart) + PadFrac(fracPart));
  }
}
