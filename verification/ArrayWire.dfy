/**
  Arrays on the wire: src/types.rs:668-695 and src/types.rs:931-976, over any codec
  for the elements.
*/
module ArrayWire {
  import opened Wrappers
  import opened Bytes
  import opened ArrayLiteral

  datatype WireError = BadLiteral | BadElement | TooLarge | ShortArray | Multidimensional | EndedEarly

  const I32_MAX := 0x7FFF_FFFF

  /** A codec for the element type; `None` is its error. */
  datatype Codec = Codec(oid: int, encode: string -> Option<seq<byte>>, decode: seq<byte> -> Option<string>)

  // ---------------------------------------------------------------------- encoding

  function ElementBytes(item: Option<string>, c: Codec): Result<seq<byte>, WireError> {
    match item
    case None => Ok(I32(-1))
    case Some(s) =>
      match c.encode(s)
      case None => Err(BadElement)
      case Some(b) => if |b| > I32_MAX then Err(TooLarge) else Ok(I32(|b|) + b)
  }

  function ItemBytes(items: seq<Option<string>>, c: Codec): Result<seq<byte>, WireError> {
    if items == [] then Ok([])
    else match ElementBytes(items[0], c)
         case Err(e) => Err(e)
         case Ok(b) =>
           match ItemBytes(items[1..], c)
           case Err(e) => Err(e)
           case Ok(rest) => Ok(b + rest)
  }

  /** One dimension, whether there is a null, the element type, the count and the
      lower bound. A count that does not fit is written as 0. */
  function ArrayHeader(items: seq<Option<string>>, oid: int): (r: seq<byte>)
    requires 0 <= oid < 0x1_0000_0000
    ensures |r| == 20
  {
    I32(1) + I32(if None in items then 1 else 0) + U32(oid) +
    I32(if |items| <= I32_MAX then |items| else 0) + I32(1)
  }

  function EncodeArray(text: string, c: Codec): Result<seq<byte>, WireError>
    requires 0 <= c.oid < 0x1_0000_0000
  {
    match ParseLiteral(text)
    case Err(_) => Err(BadLiteral)
    case Ok(items) =>
      match ItemBytes(items, c)
      case Err(e) => Err(e)
      case Ok(body) => Ok(ArrayHeader(items, c.oid) + body)
  }

  /** The source's `array_to_binary`. */
  method ArrayToBinary(text: string, c: Codec) returns (r: Result<seq<byte>, WireError>)
    requires 0 <= c.oid < 0x1_0000_0000
    ensures r == EncodeArray(text, c)
  {
    var parsed := ParseArrayLiteral(text);
    match parsed {
      case Err(_) =>
        return Err(BadLiteral);
      case Ok(items) =>
        var body := ItemLoop(items, c);
        match body {
          case Err(e) => return Err(e);
          case Ok(b) => return Ok(ArrayHeader(items, c.oid) + b);
        }
    }
  }

  method ItemLoop(items: seq<Option<string>>, c: Codec) returns (r: Result<seq<byte>, WireError>)
    ensures r == ItemBytes(items, c)
  {
    var out: seq<byte> := [];
    assert items[0..] == items;
    AppendedNothing(ItemBytes(items, c));
    for i := 0 to |items|
      invariant ItemBytes(items, c) == Appended(out, ItemBytes(items[i..], c))
    {
      assert items[i..][1..] == items[i + 1..];
      match ElementBytes(items[i], c) {
        case Err(e) =>
          return Err(e);
        case Ok(b) =>
          AppendedTwice(out, b, ItemBytes(items[i + 1..], c));
          out := out + b;
      }
    }
    assert out + [] == out;
    return Ok(out);
  }

  function Appended(out: seq<byte>, rest: Result<seq<byte>, WireError>): Result<seq<byte>, WireError> {
    match rest
    case Err(e) => Err(e)
    case Ok(b) => Ok(out + b)
  }

  lemma AppendedNothing(rest: Result<seq<byte>, WireError>)
    ensures Appended([], rest) == rest
  {
    match rest {
      case Err(_) =>
      case Ok(b) => assert [] + b == b;
    }
  }

  lemma AppendedTwice(out: seq<byte>, b: seq<byte>, rest: Result<seq<byte>, WireError>)
    ensures Appended(out, Appended(b, rest)) == Appended(out + b, rest)
  {
    match rest {
      case Err(_) =>
      case Ok(r) => assert out + (b + r) == (out + b) + r;
    }
  }

  // ---------------------------------------------------------------------- decoding

  datatype Items = Items(items: seq<Option<string>>, pos: nat)

  /** `n` elements from offset `pos`, and the offset after them. */
  function ReadItems(b: seq<byte>, pos: nat, n: nat, c: Codec): Result<Items, WireError>
    decreases n
  {
    if n == 0 then Ok(Items([], pos))
    else if pos + 4 > |b| then Err(EndedEarly)
    else
      var len := ReadI32(b, pos);
      if len < 0 then PrependItem(None, ReadItems(b, pos + 4, n - 1, c))
      else if pos + 4 + len > |b| then Err(EndedEarly)
      else match c.decode(b[pos + 4..pos + 4 + len])
           case None => Err(BadElement)
           case Some(s) => PrependItem(Some(s), ReadItems(b, pos + 4 + len, n - 1, c))
  }

  function PrependItem(item: Option<string>, rest: Result<Items, WireError>): Result<Items, WireError> {
    match rest
    case Err(e) => Err(e)
    case Ok(r) => Ok(Items([item] + r.items, r.pos))
  }

  /** What the decoder takes for granted of a one-dimensional header. */
  predicate HeaderOk(b: seq<byte>) {
    |b| >= 12 && ReadI32(b, 0) == 1 ==> |b| >= 16 && ReadI32(b, 12) >= 0
  }

  function DecodeArray(b: seq<byte>, c: Codec): Result<string, WireError>
    requires HeaderOk(b)
  {
    if |b| < 12 then Err(ShortArray)
    else if ReadI32(b, 0) == 0 then Ok("{}")
    else if ReadI32(b, 0) != 1 then Err(Multidimensional)
    else match ReadItems(b, 20, ReadI32(b, 12), c)
         case Err(e) => Err(e)
         case Ok(r) => Ok(Literal(r.items))
  }

  function PrependAll(items: seq<Option<string>>, rest: Result<Items, WireError>): Result<Items, WireError> {
    match rest
    case Err(e) => Err(e)
    case Ok(r) => Ok(Items(items + r.items, r.pos))
  }

  lemma PrependOneMore(items: seq<Option<string>>, item: Option<string>, rest: Result<Items, WireError>)
    ensures PrependAll(items, PrependItem(item, rest)) == PrependAll(items + [item], rest)
  {
    match rest {
      case Err(_) =>
      case Ok(r) => assert items + ([item] + r.items) == (items + [item]) + r.items;
    }
  }

  /** The element loop of `binary_array_to_text`, with its cursor. */
  method ReadLoop(b: seq<byte>, n: nat, c: Codec) returns (r: Result<Items, WireError>)
    ensures r == ReadItems(b, 20, n, c)
  {
    var pos := 20;
    var items: seq<Option<string>> := [];
    PrependNothing(ReadItems(b, pos, n, c));
    for i := 0 to n
      invariant 0 <= pos
      invariant PrependAll(items, ReadItems(b, pos, n - i, c)) == ReadItems(b, 20, n, c)
    {
      if pos + 4 > |b| {
        return Err(EndedEarly);
      }
      var len := ReadI32(b, pos);
      pos := pos + 4;
      if len < 0 {
        PrependOneMore(items, None, ReadItems(b, pos, n - i - 1, c));
        items := items + [None];
        continue;
      }
      if pos + len > |b| {
        return Err(EndedEarly);
      }
      match c.decode(b[pos..pos + len]) {
        case None =>
          return Err(BadElement);
        case Some(s) =>
          PrependOneMore(items, Some(s), ReadItems(b, pos + len, n - i - 1, c));
          items := items + [Some(s)];
      }
      pos := pos + len;
    }
    assert items + [] == items;
    return Ok(Items(items, pos));
  }

  lemma PrependNothing(rest: Result<Items, WireError>)
    ensures PrependAll([], rest) == rest
  {
    match rest {
      case Err(_) =>
      case Ok(r) => assert [] + r.items == r.items;
    }
  }

  /** The source's `binary_array_to_text`. */
  method BinaryArrayToText(b: seq<byte>, c: Codec) returns (r: Result<string, WireError>)
    requires HeaderOk(b)
    ensures r == DecodeArray(b, c)
  {
    if |b| < 12 {
      return Err(ShortArray);
    }
    if ReadI32(b, 0) == 0 {
      return Ok("{}");
    }
    if ReadI32(b, 0) != 1 {
      return Err(Multidimensional);
    }
    var read := ReadLoop(b, ReadI32(b, 12), c);
    match read {
      case Err(e) =>
        return Err(e);
      case Ok(got) =>
        var text := ArrayToText(got.items);
        return Ok(text);
    }
  }

  // -------------------------------------------------------------------- round trip

  /** The codec takes the element out and brings the same text back. */
  ghost predicate Survives(item: Option<string>, c: Codec) {
    item.Some? ==>
      && c.encode(item.value).Some?
      && |c.encode(item.value).value| <= I32_MAX
      && c.decode(c.encode(item.value).value) == item
  }

  lemma ReadBackAt(n: int, head: seq<byte>, rest: seq<byte>)
    requires IsI32(n)
    ensures ReadI32(head + I32(n) + rest, |head|) == n
  {
    var b := head + I32(n) + rest;
    assert b[|head|..|head| + 4] == I32(n);
    ReadBackI32(n, b, |head|);
  }

  lemma {:induction false} ReadWritten(head: seq<byte>, items: seq<Option<string>>, tail: seq<byte>, c: Codec)
    requires forall i :: 0 <= i < |items| ==> Survives(items[i], c)
    ensures ItemBytes(items, c).Ok?
    ensures var body := ItemBytes(items, c).value;
      ReadItems(head + body + tail, |head|, |items|, c) == Ok(Items(items, |head + body|))
    decreases |items|
  {
    if items == [] {
      assert head + [] == head;
    } else {
      var item := items[0];
      assert Survives(item, c);
      var first := ElementBytes(item, c).value;
      ReadWritten(head + first, items[1..], tail, c);
      var rest := ItemBytes(items[1..], c).value;
      ReadFirst(head, item, first, rest + tail, c, |items|);
      Reassociate(head, first, rest, tail);
      assert items == [item] + items[1..];
    }
  }

  lemma Reassociate(a: seq<byte>, b: seq<byte>, c: seq<byte>, d: seq<byte>)
    ensures (a + b) + c + d == a + (b + c) + d == a + b + (c + d)
    ensures |(a + b) + c| == |a + (b + c)|
  {
  }

  lemma ReadFirst(head: seq<byte>, item: Option<string>, first: seq<byte>, tail: seq<byte>, c: Codec, n: nat)
    requires Survives(item, c) && ElementBytes(item, c) == Ok(first) && n > 0
    ensures var b := head + first + tail;
      ReadItems(b, |head|, n, c) == PrependItem(item, ReadItems(b, |head + first|, n - 1, c))
  {
    var b := head + first + tail;
    match item {
      case None =>
        ReadBackAt(-1, head, tail);
      case Some(s) =>
        var data := c.encode(s).value;
        assert b == head + I32(|data|) + (data + tail);
        ReadBackAt(|data|, head, data + tail);
        assert b[|head| + 4..|head| + 4 + |data|] == data;
    }
  }

  lemma HeaderReads(items: seq<Option<string>>, oid: int, body: seq<byte>)
    requires 0 <= oid < 0x1_0000_0000 && |items| <= I32_MAX
    ensures var b := ArrayHeader(items, oid) + body;
      ReadI32(b, 0) == 1 && ReadI32(b, 12) == |items|
  {
    var flag := I32(if None in items then 1 else 0);
    var b := ArrayHeader(items, oid) + body;
    var after := flag + U32(oid) + I32(|items|) + I32(1) + body;
    assert b == [] + I32(1) + after;
    ReadBackAt(1, [], after);
    var front := I32(1) + flag + U32(oid);
    assert b == front + I32(|items|) + (I32(1) + body);
    ReadBackAt(|items|, front, I32(1) + body);
  }

  /** For any element codec that brings each element back, encoding a literal and
      decoding it gives the same elements and reads every byte. */
  lemma ArrayRoundTrip(text: string, c: Codec)
    requires 0 <= c.oid < 0x1_0000_0000
    requires ParseLiteral(text).Ok? && |ParseLiteral(text).value| <= I32_MAX
    requires forall i :: 0 <= i < |ParseLiteral(text).value| ==> Survives(ParseLiteral(text).value[i], c)
    ensures EncodeArray(text, c).Ok? && HeaderOk(EncodeArray(text, c).value)
    ensures var b := EncodeArray(text, c).value;
      && ReadItems(b, 20, |ParseLiteral(text).value|, c) == Ok(Items(ParseLiteral(text).value, |b|))
      && DecodeArray(b, c) == Ok(Literal(ParseLiteral(text).value))
  {
    var items := ParseLiteral(text).value;
    var head := ArrayHeader(items, c.oid);
    ReadWritten(head, items, [], c);
    var body := ItemBytes(items, c).value;
    assert head + body + [] == head + body;
    HeaderReads(items, c.oid, body);
  }

  /** A printed literal comes back character for character. */
  lemma PrintedArrayRoundTrip(items: seq<Option<string>>, c: Codec)
    requires 0 <= c.oid < 0x1_0000_0000 && |items| <= I32_MAX
    requires forall i :: 0 <= i < |items| ==> Survives(items[i], c)
    ensures EncodeArray(Literal(items), c).Ok? && HeaderOk(EncodeArray(Literal(items), c).value)
    ensures DecodeArray(EncodeArray(Literal(items), c).value, c) == Ok(Literal(items))
  {
    LiteralRoundTrip(items);
    ArrayRoundTrip(Literal(items), c);
  }
}
