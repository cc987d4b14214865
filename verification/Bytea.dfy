/**
  `bytea` in its hex form: src/types.rs:317-325, src/types.rs:493-508 and, for bound
  parameters, src/params.rs:78-98.
*/
module Bytea {
  import opened Wrappers
  import opened Bytes

  function HexDigit(d: int): char
    requires 0 <= d < 16
  {
    if d < 10 then ('0' as int + d) as char else ('a' as int + d - 10) as char
  }

  /** The value of a hex digit of either case. */
  function HexValue(c: char): (r: Option<int>)
    ensures r.Some? ==> 0 <= r.value < 16
  {
    if '0' <= c <= '9' then Some(c as int - '0' as int)
    else if 'a' <= c <= 'f' then Some(c as int - 'a' as int + 10)
    else if 'A' <= c <= 'F' then Some(c as int - 'A' as int + 10)
    else None
  }

  /** `u8::from_str_radix(pair, 16)`, which takes a leading plus sign. */
  function ParsePair(a: char, b: char): Option<byte> {
    match HexValue(b)
    case None => None
    case Some(low) =>
      if a == '+' then Some(low as byte)
      else match HexValue(a)
           case None => None
           case Some(high) => Some((16 * high + low) as byte)
  }

  function HexOf(bytes: seq<byte>): (s: string)
    ensures |s| == 2 * |bytes|
  {
    if bytes == [] then ""
    else [HexDigit(bytes[0] as int / 16), HexDigit(bytes[0] as int % 16)] + HexOf(bytes[1..])
  }

  function RenderBytea(bytes: seq<byte>): string { "\\x" + HexOf(bytes) }

  function ParsePairs(hex: string): (r: Option<seq<byte>>)
    requires |hex| % 2 == 0
    ensures r.Some? ==> 2 * |r.value| == |hex|
  {
    if hex == "" then Some([])
    else match (ParsePair(hex[0], hex[1]), ParsePairs(hex[2..]))
         case (Some(b), Some(rest)) => Some([b] + rest)
         case _ => None
  }

  function ParseBytea(text: string): Option<seq<byte>> {
    if "\\x" <= text && |text| % 2 == 0 then ParsePairs(text[2..]) else None
  }

  /** The loop over pairs of hex digits. */
  method DecodeBytea(text: string) returns (r: Option<seq<byte>>)
    ensures r == ParseBytea(text)
  {
    if !("\\x" <= text) {
      return None;
    }
    var hex := text[2..];
    if |hex| % 2 != 0 {
      return None;
    }
    var out: seq<byte> := [];
    var i := 0;
    assert hex[0..] == hex;
    AfterNothing(ParsePairs(hex));
    while i < |hex|
      invariant 0 <= i <= |hex| && i % 2 == 0
      invariant ParsePairs(hex) == After(out, ParsePairs(hex[i..]))
    {
      assert hex[i..][2..] == hex[i + 2..];
      match ParsePair(hex[i], hex[i + 1]) {
        case None =>
          return None;
        case Some(b) =>
          AfterOne(out, b, ParsePairs(hex[i + 2..]));
          out := out + [b];
      }
      i := i + 2;
    }
    assert out + [] == out;
    return Some(out);
  }

  function After(out: seq<byte>, rest: Option<seq<byte>>): Option<seq<byte>> {
    match rest
    case None => None
    case Some(r) => Some(out + r)
  }

  lemma AfterNothing(rest: Option<seq<byte>>)
    ensures After([], rest) == rest
  {
    match rest {
      case None =>
      case Some(r) => assert [] + r == r;
    }
  }

  lemma AfterOne(out: seq<byte>, b: byte, rest: Option<seq<byte>>)
    ensures After(out, After([b], rest)) == After(out + [b], rest)
  {
    match rest {
      case None =>
      case Some(r) => assert out + ([b] + r) == (out + [b]) + r;
    }
  }

  lemma HexDigitValue(d: int)
    requires 0 <= d < 16
    ensures HexValue(HexDigit(d)) == Some(d) && HexDigit(d) != '+'
  {
  }

  lemma {:induction false} HexRoundTrip(bytes: seq<byte>)
    ensures ParsePairs(HexOf(bytes)) == Some(bytes)
  {
    if bytes != [] {
      HexRoundTrip(bytes[1..]);
      var b := bytes[0] as int;
      HexDigitValue(b / 16);
      HexDigitValue(b % 16);
      assert HexOf(bytes)[2..] == HexOf(bytes[1..]);
      assert 16 * (b / 16) + b % 16 == b;
      assert bytes == [bytes[0]] + bytes[1..];
    }
  }

  /** Every byte string survives the trip to text and back. */
  lemma ByteaRoundTrip(bytes: seq<byte>)
    ensures ParseBytea(RenderBytea(bytes)) == Some(bytes)
  {
    assert RenderBytea(bytes)[2..] == HexOf(bytes);
    HexRoundTrip(bytes);
  }

  predicate IsLowerHex(c: char) { '0' <= c <= '9' || 'a' <= c <= 'f' }

  lemma {:induction false} PairsRoundTrip(hex: string)
    requires |hex| % 2 == 0 && ParsePairs(hex).Some?
    ensures HexOf(ParsePairs(hex).value) == hex <==> forall i :: 0 <= i < |hex| ==> IsLowerHex(hex[i])
  {
    if hex != "" {
      PairsRoundTrip(hex[2..]);
      var b := ParsePair(hex[0], hex[1]).value as int;
      PairText(hex[0], hex[1]);
      var again := HexOf(ParsePairs(hex).value);
      assert again[..2] == [HexDigit(b / 16), HexDigit(b % 16)] && again[2..] == HexOf(ParsePairs(hex[2..]).value);
      assert again == hex <==> again[..2] == hex[..2] && again[2..] == hex[2..];
      assert (forall i :: 0 <= i < |hex| ==> IsLowerHex(hex[i])) <==>
        IsLowerHex(hex[0]) && IsLowerHex(hex[1]) && forall i :: 0 <= i < |hex[2..]| ==> IsLowerHex(hex[2..][i]) by {
        assert forall i :: 2 <= i < |hex| ==> hex[i] == hex[2..][i - 2];
      }
    }
  }

  lemma PairText(a: char, b: char)
    requires ParsePair(a, b).Some?
    ensures var v := ParsePair(a, b).value as int;
      [HexDigit(v / 16), HexDigit(v % 16)] == [a, b] <==> IsLowerHex(a) && IsLowerHex(b)
  {
  }

  /** An accepted text comes back unchanged exactly when it holds lower-case hex
      digits only: upper case is folded, and `+f` is read as `0f`. */
  lemma TextRoundTrip(text: string)
    requires ParseBytea(text).Some?
    ensures RenderBytea(ParseBytea(text).value) == text <==> forall i :: 2 <= i < |text| ==> IsLowerHex(text[i])
  {
    var hex := text[2..];
    PairsRoundTrip(hex);
    assert text == "\\x" + hex;
    assert forall i :: 2 <= i < |text| ==> text[i] == hex[i - 2];
    assert forall i :: 0 <= i < |hex| ==> hex[i] == text[i + 2];
    assert RenderBytea(ParseBytea(text).value)[2..] == HexOf(ParsePairs(hex).value);
  }

  /** `\x+f` is accepted, and comes back as `\x0f`. */
  lemma PlusExample()
    ensures ParseBytea("\\x+f") == Some([15]) && RenderBytea([15]) == "\\x0f"
  {
    assert "\\x+f"[2..] == "+f" && "+f"[2..] == "" && "\\x" <= "\\x+f";
    var hex := "+f";
    assert ParsePair(hex[0], hex[1]) == Some(15) && ParsePairs(hex[2..]) == Some([]);
    assert [15 as byte] + [] == [15];
    assert ParsePairs(hex) == Some([15]);
    assert HexOf([15]) == [HexDigit(0), HexDigit(15)] + HexOf([15][1..]);
    assert [15][1..] == [];
  }
}
