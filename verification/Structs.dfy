/**
 Fixed-width big-endian fields: what packing and unpacking with a format string of the items B, H, i and q does,
 and length-prefixed strings.
 */
module Structs {
  import opened Wrappers
  import opened Bytes

  /** `UInt8` is format item B, `UInt16` H, `Int32` i and `Int64` q. */
  datatype Item = UInt8 | UInt16 | Int32 | Int64

  datatype CodecError = ProtocolError | StructError | IndexError

  function Width(item: Item): (w: nat)
    ensures w > 0
  {
    match item
    case UInt8 => 1
    case UInt16 => 2
    case Int32 => 4
    case Int64 => 8
  }

  predicate Signed(item: Item)
  {
    item == Int32 || item == Int64
  }

  /** The least value of a two's-complement or unsigned item; the greatest is one below `Least + 256^width`. */
  function Least(item: Item): int
  {
    if Signed(item) then -(Pow256(Width(item)) / 2) else 0
  }

  predicate Fits(item: Item, v: int)
  {
    Least(item) <= v < Least(item) + Pow256(Width(item))
  }

  lemma {:induction false} PowerIsPositive(width: nat)
    ensures Pow256(width) > 0
  {
    if width > 0 {
      PowerIsPositive(width - 1);
    }
  }

  lemma ItemRanges()
    ensures forall v :: Fits(UInt8, v) <==> 0 <= v < 0x100
    ensures forall v :: Fits(UInt16, v) <==> 0 <= v < 0x10000
    ensures forall v :: Fits(Int32, v) <==> -0x8000_0000 <= v < 0x8000_0000
    ensures forall v :: Fits(Int64, v) <==> -0x8000_0000_0000_0000 <= v < 0x8000_0000_0000_0000
  {
    assert Pow256(0) == 1 && Pow256(1) == 0x100 && Pow256(2) == 0x10000;
    assert Pow256(3) == 256 * Pow256(2) && Pow256(4) == 256 * Pow256(3);
    assert Pow256(5) == 256 * Pow256(4) && Pow256(6) == 256 * Pow256(5);
    assert Pow256(7) == 256 * Pow256(6) && Pow256(8) == 256 * Pow256(7);
  }

  /** Two's complement: a negative value is written as itself plus 256^width. */
  function PackItem(item: Item, v: int): (b: bytes)
    requires Fits(item, v)
    ensures |b| == Width(item)
  {
    PowerIsPositive(Width(item));
    BigEndian(if v < 0 then v + Pow256(Width(item)) else v, Width(item))
  }

  function UnpackItem(item: Item, b: bytes): int
  {
    var u := FromBigEndian(b);
    if Signed(item) && u >= Pow256(Width(item)) / 2 then u - Pow256(Width(item)) else u
  }

  /** What the octets of a packed item spell: the value, or for a negative one the value plus 256^width. */
  lemma ItemSpells(item: Item, v: int)
    requires Fits(item, v)
    ensures FromBigEndian(PackItem(item, v)) == if v < 0 then v + Pow256(Width(item)) else v
  {
    var p := Pow256(Width(item));
    assert p == 256 * Pow256(Width(item) - 1);
    FromBigEndianInverse(if v < 0 then v + p else v, Width(item));
  }

  lemma HalfOf(item: Item)
    ensures Pow256(Width(item)) / 2 * 2 == Pow256(Width(item))
  {
    assert Pow256(Width(item)) == 256 * Pow256(Width(item) - 1);
  }

  lemma ItemRoundTrip(item: Item, v: int)
    requires Fits(item, v)
    ensures UnpackItem(item, PackItem(item, v)) == v
  {
    ItemSpells(item, v);
    HalfOf(item);
  }

  lemma ItemOfBytes(item: Item, b: bytes)
    requires |b| == Width(item)
    ensures Fits(item, UnpackItem(item, b)) && PackItem(item, UnpackItem(item, b)) == b
  {
    var p := Pow256(Width(item));
    assert p == 256 * Pow256(Width(item) - 1);
    BigEndianInverse(b);
  }

  // ---------- formats ----------

  type Format = seq<Item>

  function Size(format: Format): nat
  {
    if format == [] then 0 else Width(format[0]) + Size(format[1..])
  }

  predicate AllFit(format: Format, values: seq<int>)
  {
    |values| == |format| && forall i :: 0 <= i < |format| ==> Fits(format[i], values[i])
  }

  function Packed(format: Format, values: seq<int>): (b: bytes)
    requires AllFit(format, values)
    ensures |b| == Size(format)
  {
    if format == [] then [] else PackItem(format[0], values[0]) + Packed(format[1..], values[1..])
  }

  function Pack(format: Format, values: seq<int>): Result<bytes, CodecError>
  {
    if AllFit(format, values) then Ok(Packed(format, values)) else Err(StructError)
  }

  function Unpack(format: Format, data: bytes): (values: seq<int>)
    requires |data| == Size(format)
    ensures |values| == |format|
  {
    if format == [] then []
    else
      var w := Width(format[0]);
      [UnpackItem(format[0], data[..w])] + Unpack(format[1..], data[w..])
  }

  /** Unpacking undoes packing. */
  lemma {:induction false} UnpackPack(format: Format, values: seq<int>)
    requires AllFit(format, values)
    ensures Unpack(format, Packed(format, values)) == values
  {
    if format != [] {
      var w, b := Width(format[0]), Packed(format, values);
      assert b[..w] == PackItem(format[0], values[0]) && b[w..] == Packed(format[1..], values[1..]);
      ItemRoundTrip(format[0], values[0]);
      UnpackPack(format[1..], values[1..]);
    }
  }

  lemma AllFitCons(format: Format, v: int, rest: seq<int>)
    requires format != [] && Fits(format[0], v) && AllFit(format[1..], rest)
    ensures AllFit(format, [v] + rest) && ([v] + rest)[1..] == rest
  {
    assert forall i :: 1 <= i < |format| ==> format[i] == format[1..][i - 1] && ([v] + rest)[i] == rest[i - 1];
  }

  lemma SplitFirst(format: Format, data: bytes)
    requires format != [] && |data| == Size(format)
    ensures var w := Width(format[0]);
      && w <= |data| && |data[w..]| == Size(format[1..]) && data == data[..w] + data[w..]
      && Unpack(format, data)[0] == UnpackItem(format[0], data[..w])
      && Unpack(format, data)[1..] == Unpack(format[1..], data[w..])
  {
  }

  lemma PackedFirst(format: Format, values: seq<int>)
    requires format != [] && AllFit(format, values)
    ensures Packed(format, values) == PackItem(format[0], values[0]) + Packed(format[1..], values[1..])
  {
  }

  /** Packing undoes unpacking, so a format is a bijection between its value tuples and the strings of its size. */
  lemma {:induction false} PackUnpack(format: Format, data: bytes)
    requires |data| == Size(format)
    ensures AllFit(format, Unpack(format, data)) && Packed(format, Unpack(format, data)) == data
  {
    if format != [] {
      var w, values := Width(format[0]), Unpack(format, data);
      SplitFirst(format, data);
      ItemOfBytes(format[0], data[..w]);
      PackUnpack(format[1..], data[w..]);
      AllFitCons(format, values[0], values[1..]);
      assert values == [values[0]] + values[1..];
      PackedFirst(format, values);
    }
  }

  /** Where field `k` starts. */
  function Offset(format: Format, k: nat): nat
    requires k <= |format|
  {
    if k == 0 then 0 else Offset(format, k - 1) + Width(format[k - 1])
  }

  lemma {:induction false} OffsetOfTail(format: Format, k: nat)
    requires 0 < k <= |format|
    ensures Offset(format, k) == Width(format[0]) + Offset(format[1..], k - 1)
  {
    if k > 1 {
      OffsetOfTail(format, k - 1);
    }
  }

  lemma SliceOfTail(data: bytes, w: nat, i: nat, j: nat)
    requires i <= j && w + j <= |data|
    ensures data[w..][i..j] == data[w + i..w + j]
  {
  }

  /** The data cut into its fields. */
  function Fields(format: Format, data: bytes): (fields: seq<bytes>)
    requires |data| == Size(format)
    ensures |fields| == |format|
  {
    if format == [] then []
    else
      var w := Width(format[0]);
      [data[..w]] + Fields(format[1..], data[w..])
  }

  lemma {:induction false} FieldAt(format: Format, data: bytes, k: nat)
    requires |data| == Size(format) && k < |format|
    ensures Offset(format, k) + Width(format[k]) <= |data|
    ensures Fields(format, data)[k] == data[Offset(format, k)..Offset(format, k) + Width(format[k])]
  {
    if k > 0 {
      var w, tail := Width(format[0]), format[1..];
      OffsetOfTail(format, k);
      FieldAt(tail, data[w..], k - 1);
      SliceOfTail(data, w, Offset(tail, k - 1), Offset(tail, k - 1) + Width(format[k]));
    }
  }

  lemma {:induction false} UnpackFields(format: Format, data: bytes, k: nat)
    requires |data| == Size(format) && k < |format|
    ensures Unpack(format, data)[k] == UnpackItem(format[k], Fields(format, data)[k])
  {
    if k > 0 {
      var w := Width(format[0]);
      UnpackFields(format[1..], data[w..], k - 1);
    }
  }

  /** Every field is read at its own place. */
  lemma UnpackAt(format: Format, data: bytes, k: nat)
    requires |data| == Size(format) && k < |format|
    ensures Offset(format, k) + Width(format[k]) <= |data|
    ensures Unpack(format, data)[k]
         == UnpackItem(format[k], data[Offset(format, k)..Offset(format, k) + Width(format[k])])
  {
    FieldAt(format, data, k);
    UnpackFields(format, data, k);
  }

  // ---------- strings ----------

  /** A string is its octets; how text becomes octets is not modelled. */
  function PackStr(s: bytes): Result<bytes, CodecError>
  {
    if |s| > 255 then Err(ProtocolError) else Ok([|s|] + s)
  }

  datatype Text = Text(value: bytes, next: nat)

  function UnpackStr(data: bytes, offset: nat): Result<Text, CodecError>
  {
    if offset >= |data| then Err(ProtocolError)
    else
      var length, start := data[offset], offset + 1;
      if start + length > |data| then Err(ProtocolError)
      else Ok(Text(data[start..start + length], start + length))
  }

  /** Reading a string succeeds exactly where a written one stands. */
  lemma UnpackStrIff(data: bytes, offset: nat, s: bytes, next: nat)
    ensures UnpackStr(data, offset) == Ok(Text(s, next))
       <==> PackStr(s).Ok? && offset + |PackStr(s).value| == next <= |data| && data[offset..next] == PackStr(s).value
  {
    if |s| <= 255 && offset + 1 + |s| == next <= |data| {
      var w := data[offset..next];
      assert data[offset + 1..next] == w[1..] && data[offset] == w[0];
      assert ([|s|] + s)[1..] == s;
      assert w == [w[0]] + w[1..];
    }
  }

  function PackStrings(texts: seq<bytes>): Result<bytes, CodecError>
  {
    if texts == [] then Ok([])
    else
      var first :- PackStr(texts[0]);
      var rest :- PackStrings(texts[1..]);
      Ok(first + rest)
  }

  datatype Texts = Texts(values: seq<bytes>, next: nat)

  function UnpackStrings(data: bytes, offset: nat, n: nat): Result<Texts, CodecError>
    decreases n
  {
    if n == 0 then Ok(Texts([], offset))
    else
      var first :- UnpackStr(data, offset);
      var rest :- UnpackStrings(data, first.next, n - 1);
      Ok(Texts([first.value] + rest.values, rest.next))
  }

  lemma Adjacent(data: bytes, i: nat, j: nat, k: nat, a: bytes, b: bytes)
    requires i + |a| == j && j + |b| == k <= |data|
    ensures data[i..k] == a + b <==> data[i..j] == a && data[j..k] == b
  {
    assert data[i..k] == data[i..j] + data[j..k];
    assert (a + b)[..|a|] == a && (a + b)[|a|..] == b;
    assert data[i..k][..|a|] == data[i..j] && data[i..k][|a|..] == data[j..k];
  }

  /** Reading `n` strings succeeds exactly where `n` written ones stand. */
  lemma {:induction false} UnpackStringsIff(data: bytes, offset: nat, n: nat, texts: seq<bytes>, next: nat)
    requires offset <= |data|
    ensures UnpackStrings(data, offset, n) == Ok(Texts(texts, next))
       <==> && |texts| == n && PackStrings(texts).Ok?
            && offset + |PackStrings(texts).value| == next <= |data|
            && data[offset..next] == PackStrings(texts).value
    decreases n
  {
    if n > 0 && |texts| == n {
      assert texts == [texts[0]] + texts[1..];
      var j := offset + 1 + |texts[0]|;
      UnpackStrIff(data, offset, texts[0], j);
      if j <= |data| {
        UnpackStringsIff(data, j, n - 1, texts[1..], next);
        if PackStr(texts[0]).Ok? && PackStrings(texts[1..]).Ok? {
          var a, b := PackStr(texts[0]).value, PackStrings(texts[1..]).value;
          if offset + |a| + |b| == next <= |data| {
            Adjacent(data, offset, j, next, a, b);
          }
        }
      }
      if UnpackStrings(data, offset, n) == Ok(Texts(texts, next)) {
        var first := UnpackStr(data, offset).value;
        assert first.value == texts[0];
        UnpackStrIff(data, offset, first.value, first.next);
        var rest := UnpackStrings(data, first.next, n - 1).value;
        assert ([first.value] + rest.values)[1..] == rest.values;
      }
    } else if n > 0 && UnpackStrings(data, offset, n).Ok? {
      UnpackedCount(data, offset, n);
    }
  }

  lemma {:induction false} UnpackedCount(data: bytes, offset: nat, n: nat)
    requires UnpackStrings(data, offset, n).Ok?
    ensures |UnpackStrings(data, offset, n).value.values| == n
    decreases n
  {
    if n > 0 {
      UnpackedCount(data, UnpackStr(data, offset).value.next, n - 1);
    }
  }
}
