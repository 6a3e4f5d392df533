/** The CONFIG_WRITE payload: a version, a count, and that many key/value pairs in the order of their keys. */
module ConfigWrite {
  import opened Wrappers
  import opened Bytes
  import opened Structs
  import opened Sorting

  type Parameters = map<bytes, int>

  datatype Config = Config(version: int, parameters: Parameters)

  // ---------- the order of keys ----------

  /** Octet order of UTF-8 strings, which is the code point order the program sorts by. */
  predicate Before(a: bytes, b: bytes)
  {
    b != [] && (a == [] || a[0] < b[0] || (a[0] == b[0] && Before(a[1..], b[1..])))
  }

  lemma {:induction false} Irreflexive(a: bytes)
    ensures !Before(a, a)
  {
    if a != [] {
      Irreflexive(a[1..]);
    }
  }

  lemma {:induction false} Total(a: bytes, b: bytes)
    ensures a == b || Before(a, b) || Before(b, a)
  {
    if a != [] && b != [] {
      Total(a[1..], b[1..]);
      if a[0] == b[0] && a[1..] == b[1..] {
        assert a == [a[0]] + a[1..] && b == [b[0]] + b[1..];
      }
    }
  }

  lemma {:induction false} Transitive(a: bytes, b: bytes, c: bytes)
    requires Before(a, b) && Before(b, c)
    ensures Before(a, c)
  {
    if a != [] && a[0] == b[0] == c[0] {
      Transitive(a[1..], b[1..], c[1..]);
    }
  }

  lemma SameFirst(a: bytes, b: bytes)
    requires a != [] && b != [] && a[0] == b[0]
    ensures a < b <==> a[1..] < b[1..]
    ensures (exists i :: 0 <= i < |a| && i < |b| && a[..i] == b[..i] && a[i] < b[i])
       <==> exists i :: 0 <= i < |a[1..]| && i < |b[1..]| && a[1..][..i] == b[1..][..i] && a[1..][i] < b[1..][i]
  {
    assert a == [a[0]] + a[1..] && b == [b[0]] + b[1..];
    forall i | 0 < i < |a| && i < |b|
      ensures a[..i] == b[..i] <==> a[1..][..i - 1] == b[1..][..i - 1]
    {
      assert a[..i] == [a[0]] + a[1..][..i - 1] && b[..i] == [b[0]] + b[1..][..i - 1];
      assert a[..i][1..] == a[1..][..i - 1] && b[..i][1..] == b[1..][..i - 1];
    }
    if i :| 0 <= i < |a[1..]| && i < |b[1..]| && a[1..][..i] == b[1..][..i] && a[1..][i] < b[1..][i] {
      assert a[..i + 1] == b[..i + 1] && a[i + 1] < b[i + 1];
    }
    if i :| 0 <= i < |a| && i < |b| && a[..i] == b[..i] && a[i] < b[i] {
      assert a[1..][..i - 1] == b[1..][..i - 1] && a[1..][i - 1] < b[1..][i - 1];
    }
  }

  /** A key comes before its proper extensions, and otherwise the first octet that differs decides. */
  lemma {:induction false} BeforeIff(a: bytes, b: bytes)
    ensures Before(a, b)
       <==> a < b || exists i :: 0 <= i < |a| && i < |b| && a[..i] == b[..i] && a[i] < b[i]
  {
    if a != [] && b != [] {
      BeforeIff(a[1..], b[1..]);
      if a[0] < b[0] {
        assert a[..0] == b[..0];
      }
      if a[0] == b[0] {
        SameFirst(a, b);
      }
    }
  }

  lemma KeyOrder()
    ensures StrictOrder(Before)
  {
    forall a: bytes
      ensures !Before(a, a)
    {
      Irreflexive(a);
    }
    forall a: bytes, b: bytes | a != b
      ensures Before(a, b) || Before(b, a)
    {
      Total(a, b);
    }
    forall a: bytes, b: bytes, c: bytes | Before(a, b) && Before(b, c)
      ensures Before(a, c)
    {
      Transitive(a, b, c);
    }
  }

  // ---------- encoding ----------

  const HEAD: Format := [UInt16, UInt8]

  function PackEntry(key: bytes, value: int): Result<bytes, CodecError>
  {
    var k :- PackStr(key);
    var v :- Pack([Int32], [value]);
    Ok(k + v)
  }

  /** The pairs in the order of `keys`; the first key or value that does not fit decides the error. */
  function PackEntries(keys: seq<bytes>, parameters: Parameters): Result<bytes, CodecError>
    requires forall i :: 0 <= i < |keys| ==> keys[i] in parameters
  {
    if keys == [] then Ok([])
    else
      var first :- PackEntry(keys[0], parameters[keys[0]]);
      var rest :- PackEntries(keys[1..], parameters);
      Ok(first + rest)
  }

  function Encoding(version: int, parameters: Parameters, keys: seq<bytes>): Result<bytes, CodecError>
    requires forall i :: 0 <= i < |keys| ==> keys[i] in parameters
  {
    var head :- Pack(HEAD, [version, |parameters|]);
    var body :- PackEntries(keys, parameters);
    Ok(head + body)
  }

  method AppendEntries(head: bytes, keys: seq<bytes>, parameters: Parameters) returns (r: Result<bytes, CodecError>)
    requires forall i :: 0 <= i < |keys| ==> keys[i] in parameters
    ensures r == After(head, PackEntries(keys, parameters))
  {
    var body := head;
    ghost var goal := After(head, PackEntries(keys, parameters));
    assert keys[0..] == keys;
    var i := 0;
    while i < |keys|
      invariant i <= |keys|
      invariant goal == After(body, PackEntries(keys[i..], parameters))
    {
      assert keys[i..][0] == keys[i] && keys[i..][1..] == keys[i + 1..];
      NextEntry(body, keys[i..], parameters);
      var k := PackStr(keys[i]);
      if k.Err? {
        return Err(k.error);
      }
      var v := Pack([Int32], [parameters[keys[i]]]);
      if v.Err? {
        return Err(v.error);
      }
      body := body + (k.value + v.value);
      i := i + 1;
    }
    assert body + [] == body;
    return Ok(body);
  }

  function After(head: bytes, rest: Result<bytes, CodecError>): Result<bytes, CodecError>
  {
    if rest.Err? then rest else Ok(head + rest.value)
  }

  lemma NextEntry(body: bytes, keys: seq<bytes>, parameters: Parameters)
    requires keys != [] && forall i :: 0 <= i < |keys| ==> keys[i] in parameters
    ensures var first := PackEntry(keys[0], parameters[keys[0]]);
      After(body, PackEntries(keys, parameters))
      == if first.Err? then Err(first.error) else After(body + first.value, PackEntries(keys[1..], parameters))
  {
    var first, rest := PackEntry(keys[0], parameters[keys[0]]), PackEntries(keys[1..], parameters);
    if first.Ok? && rest.Ok? {
      assert body + (first.value + rest.value) == body + first.value + rest.value;
    }
  }

  /** The encoder: the result depends on the map alone, through the one ascending order of its keys. */
  method EncodeConfigWrite(version: int, parameters: Parameters) returns (r: Result<bytes, CodecError>)
    ensures r == Encoded(version, parameters)
  {
    KeyOrder();
    var head := Pack(HEAD, [version, |parameters|]);
    if head.Err? {
      return Err(head.error);
    }
    var keys := Sort(parameters.Keys, Before);
    SortedKeys(parameters);
    r := AppendEntries(head.value, keys, parameters);
  }

  lemma SortedKeys(parameters: Parameters)
    requires StrictOrder(Before)
    ensures var keys := Sorted(parameters.Keys, Before);
      Distinct(keys) && Elements(keys) == parameters.Keys && |keys| == |parameters|
      && forall i :: 0 <= i < |keys| ==> keys[i] in parameters
  {
    var keys := Sorted(parameters.Keys, Before);
    AscendingIsDistinct(keys, Before);
    assert forall i :: 0 <= i < |keys| ==> keys[i] in Elements(keys);
    ElementCount(keys);
    assert |parameters.Keys| == |parameters|;
  }

  lemma {:induction false} ElementCount(keys: seq<bytes>)
    requires Distinct(keys)
    ensures |Elements(keys)| == |keys|
  {
    if keys == [] {
      assert Elements(keys) == {};
    } else {
      var last := |keys| - 1;
      ElementCount(keys[..last]);
      NextElement(keys, last);
      assert keys[..last + 1] == keys;
    }
  }

  ghost function Encoded(version: int, parameters: Parameters): Result<bytes, CodecError>
  {
    KeyOrder();
    SortedKeys(parameters);
    Encoding(version, parameters, Sorted(parameters.Keys, Before))
  }

  /** Any ascending enumeration of the keys gives the same octets. */
  lemma EncodingIsCanonical(version: int, parameters: Parameters, keys: seq<bytes>)
    requires Ascending(keys, Before) && Elements(keys) == parameters.Keys
    requires forall i :: 0 <= i < |keys| ==> keys[i] in parameters
    ensures Encoding(version, parameters, keys) == Encoded(version, parameters)
  {
    KeyOrder();
    UniqueEnumeration(keys, Sorted(parameters.Keys, Before), Before);
  }

  // ---------- decoding ----------

  datatype Entry = Entry(key: bytes, value: int, next: nat)

  function UnpackEntry(data: bytes, offset: nat): Result<Entry, CodecError>
  {
    var key :- UnpackStr(data, offset);
    if key.next + 4 > |data| then Err(ProtocolError)
    else
      Ok(Entry(key.value, UnpackItem(Int32, data[key.next..key.next + 4]), key.next + 4))
  }

  /** `n` pairs from `offset` on, a later pair replacing an earlier one with the same key. */
  function UnpackEntries(data: bytes, offset: nat, n: nat, parameters: Parameters): Result<Parameters, CodecError>
    decreases n
  {
    if n == 0 then Ok(parameters)
    else
      var e :- UnpackEntry(data, offset);
      UnpackEntries(data, e.next, n - 1, parameters[e.key := e.value])
  }

  function Decoded(data: bytes): Result<Config, CodecError>
  {
    if |data| < 3 then Err(ProtocolError)
    else
      var count := data[2];
      var parameters :- UnpackEntries(data, 3, count, map[]);
      Ok(Config(UnpackItem(UInt16, data[..2]), parameters))
  }

  method DecodeConfigWrite(data: bytes) returns (r: Result<Config, CodecError>)
    ensures r == Decoded(data)
  {
    if |data| < 3 {
      return Err(ProtocolError);
    }
    var version, count := UnpackItem(UInt16, data[..2]), data[2];
    var offset: nat := 3;
    var parameters: Parameters := map[];
    ghost var goal := UnpackEntries(data, 3, count, map[]);
    for i := 0 to count
      invariant goal == UnpackEntries(data, offset, count - i, parameters)
    {
      var key := UnpackStr(data, offset);
      if key.Err? {
        return Err(key.error);
      }
      offset := key.value.next;
      if offset + 4 > |data| {
        return Err(ProtocolError);
      }
      parameters := parameters[key.value.value := UnpackItem(Int32, data[offset..offset + 4])];
      offset := offset + 4;
    }
    return Ok(Config(version, parameters));
  }

  // ---------- round trip ----------

  lemma OneItem(item: Item, v: int)
    requires Fits(item, v)
    ensures Packed([item], [v]) == PackItem(item, v)
  {
    assert [item][1..] == [] && [v][1..] == [];
    assert PackItem(item, v) + [] == PackItem(item, v);
  }

  lemma OneInt32(v: int)
    ensures Pack([Int32], [v]) == if Fits(Int32, v) then Ok(PackItem(Int32, v)) else Err(StructError)
  {
    if Fits(Int32, v) {
      OneItem(Int32, v);
    } else {
      assert [Int32][0] == Int32 && [v][0] == v;
    }
  }

  lemma EntryRoundTrip(data: bytes, offset: nat, key: bytes, value: int)
    requires PackEntry(key, value).Ok?
    requires var p := PackEntry(key, value).value; offset + |p| <= |data| && data[offset..offset + |p|] == p
    ensures UnpackEntry(data, offset) == Ok(Entry(key, value, offset + |PackEntry(key, value).value|))
  {
    OneInt32(value);
    var k, v := PackStr(key).value, PackItem(Int32, value);
    var middle := offset + |k|;
    Adjacent(data, offset, middle, middle + 4, k, v);
    UnpackStrIff(data, offset, key, middle);
    ItemRoundTrip(Int32, value);
  }

  /** The pairs of a payload in wire order. */
  datatype Pair = Pair(key: bytes, value: int)

  function PackPairs(es: seq<Pair>): Result<bytes, CodecError>
  {
    if es == [] then Ok([])
    else
      var first :- PackEntry(es[0].key, es[0].value);
      var rest :- PackPairs(es[1..]);
      Ok(first + rest)
  }

  /** The map after the pairs are stored one after the other. */
  function Stored(parameters: Parameters, es: seq<Pair>): Parameters
    decreases es
  {
    if es == [] then parameters else Stored(parameters[es[0].key := es[0].value], es[1..])
  }

  function PairsOf(keys: seq<bytes>, from: Parameters): seq<Pair>
    requires forall i :: 0 <= i < |keys| ==> keys[i] in from
  {
    if keys == [] then [] else [Pair(keys[0], from[keys[0]])] + PairsOf(keys[1..], from)
  }

  lemma {:induction false} EntriesArePairs(keys: seq<bytes>, from: Parameters)
    requires forall i :: 0 <= i < |keys| ==> keys[i] in from
    ensures PackEntries(keys, from) == PackPairs(PairsOf(keys, from)) && |PairsOf(keys, from)| == |keys|
  {
    if keys != [] {
      EntriesArePairs(keys[1..], from);
    }
  }

  lemma {:induction false} PairsRoundTrip(data: bytes, offset: nat, es: seq<Pair>, parameters: Parameters)
    requires PackPairs(es).Ok?
    requires var p := PackPairs(es).value; offset + |p| <= |data| && data[offset..offset + |p|] == p
    ensures UnpackEntries(data, offset, |es|, parameters) == Ok(Stored(parameters, es))
    decreases es
  {
    if es != [] {
      var e, rest := es[0], es[1..];
      var a, b := PackEntry(e.key, e.value).value, PackPairs(rest).value;
      var middle := offset + |a|;
      Adjacent(data, offset, middle, middle + |b|, a, b);
      EntryRoundTrip(data, offset, e.key, e.value);
      PairsRoundTrip(data, middle, rest, parameters[e.key := e.value]);
    }
  }

  lemma EntryOnWire(data: bytes, offset: nat)
    requires UnpackEntry(data, offset).Ok?
    ensures var e := UnpackEntry(data, offset).value;
      PackEntry(e.key, e.value).Ok? && offset + |PackEntry(e.key, e.value).value| == e.next <= |data|
      && data[offset..e.next] == PackEntry(e.key, e.value).value
  {
    var key := UnpackStr(data, offset).value;
    UnpackStrIff(data, offset, key.value, key.next);
    ItemOfBytes(Int32, data[key.next..key.next + 4]);
    var value := UnpackItem(Int32, data[key.next..key.next + 4]);
    OneInt32(value);
    Adjacent(data, offset, key.next, key.next + 4, PackStr(key.value).value, PackItem(Int32, value));
  }

  /** Whatever pairs are read stand on the wire as they would have been written. */
  lemma {:induction false} PairsOnWire(data: bytes, offset: nat, n: nat, parameters: Parameters) returns (es: seq<Pair>)
    requires offset <= |data| && UnpackEntries(data, offset, n, parameters).Ok?
    ensures |es| == n && PackPairs(es).Ok?
    ensures var p := PackPairs(es).value; offset + |p| <= |data| && data[offset..offset + |p|] == p
    ensures UnpackEntries(data, offset, n, parameters) == Ok(Stored(parameters, es))
    decreases n
  {
    if n == 0 {
      es := [];
    } else {
      var e := UnpackEntry(data, offset).value;
      EntryOnWire(data, offset);
      var rest := PairsOnWire(data, e.next, n - 1, parameters[e.key := e.value]);
      es := [Pair(e.key, e.value)] + rest;
      assert es[1..] == rest;
      var a, b := PackEntry(e.key, e.value).value, PackPairs(rest).value;
      Adjacent(data, offset, e.next, e.next + |b|, a, b);
    }
  }

  lemma {:induction false} StoredIs(parameters: Parameters, keys: seq<bytes>, from: Parameters)
    requires forall i :: 0 <= i < |keys| ==> keys[i] in from
    ensures var r := Stored(parameters, PairsOf(keys, from));
      && (forall k :: k in r <==> k in parameters || k in keys)
      && (forall k :: k in r ==> r[k] == if k in keys then from[k] else parameters[k])
    decreases keys
  {
    if keys != [] {
      var key, rest := keys[0], PairsOf(keys[1..], from);
      StoredIs(parameters[key := from[key]], keys[1..], from);
      assert PairsOf(keys, from)[1..] == rest;
      assert forall k :: k in keys <==> k == key || k in keys[1..];
    }
  }

  lemma StoredAll(keys: seq<bytes>, from: Parameters)
    requires Elements(keys) == from.Keys
    requires forall i :: 0 <= i < |keys| ==> keys[i] in from
    ensures Stored(map[], PairsOf(keys, from)) == from
  {
    StoredIs(map[], keys, from);
    assert forall k :: k in keys <==> k in Elements(keys);
  }

  lemma HeadBytes(version: int, count: int)
    requires Fits(UInt16, version) && Fits(UInt8, count)
    ensures var h := PackItem(UInt16, version) + PackItem(UInt8, count);
      |h| == 3 && Pack(HEAD, [version, count]) == Ok(h)
      && UnpackItem(UInt16, h[..2]) == version && h[2] == count
  {
    var f, v := HEAD, [version, count];
    assert AllFit(f, v);
    assert f[1..] == [UInt8] && v[1..] == [count];
    OneItem(UInt8, count);
    ItemRoundTrip(UInt16, version);
    var b := PackItem(UInt8, count);
    assert b == BigEndian(count, 1) == BigEndian(count / 256, 0) + [count % 256];
    ItemRanges();
    var h := PackItem(UInt16, version) + b;
    assert h[..2] == PackItem(UInt16, version);
  }

  /** Decoding gives back every map that could be encoded, whatever follows the encoding. */
  lemma ConfigRoundTrip(version: int, parameters: Parameters, data: bytes)
    requires Encoded(version, parameters).Ok? && Encoded(version, parameters).value <= data
    ensures Decoded(data) == Ok(Config(version, parameters))
  {
    KeyOrder();
    SortedKeys(parameters);
    var keys := Sorted(parameters.Keys, Before);
    var count := |parameters|;
    HeadFits(version, count);
    EntriesArePairs(keys, parameters);
    StoredAll(keys, parameters);
    WireDecodes(version, PairsOf(keys, parameters), data);
  }

  /** A version, a count and that many pairs. */
  function Wire(version: int, es: seq<Pair>): Result<bytes, CodecError>
  {
    var head :- Pack(HEAD, [version, |es|]);
    var body :- PackPairs(es);
    Ok(head + body)
  }

  lemma WireDecodes(version: int, es: seq<Pair>, data: bytes)
    requires Wire(version, es).Ok? && Wire(version, es).value <= data
    ensures Decoded(data) == Ok(Config(version, Stored(map[], es)))
  {
    HeadFits(version, |es|);
    HeadBytes(version, |es|);
    var h, body := Pack(HEAD, [version, |es|]).value, PackPairs(es).value;
    var end := 3 + |body|;
    assert data[0..end] == h + body;
    Adjacent(data, 0, 3, end, h, body);
    assert data[..2] == data[0..3][..2] && data[2] == data[0..3][2];
    PairsRoundTrip(data, 3, es, map[]);
  }

  /**
   Exactly what the decoder accepts: any number of pairs in any order, repeated keys included, where the last pair
   of a key counts, followed by anything.
   */
  lemma DecodedIff(data: bytes, c: Config)
    ensures Decoded(data) == Ok(c)
       <==> exists es: seq<Pair> :: Wire(c.version, es).Ok? && Wire(c.version, es).value <= data
                                    && Stored(map[], es) == c.parameters
  {
    if Decoded(data) == Ok(c) {
      var es := PairsOnWire(data, 3, data[2], map[]);
      var body := PackPairs(es).value;
      HeadOnWire(data);
      var h := data[..3];
      Adjacent(data, 0, 3, 3 + |body|, h, body);
      assert data[0..3] == h && data[0..3 + |body|] == data[..3 + |body|];
      assert Wire(c.version, es) == Ok(h + body);
    }
    if es: seq<Pair> :| Wire(c.version, es).Ok? && Wire(c.version, es).value <= data
                        && Stored(map[], es) == c.parameters {
      WireDecodes(c.version, es, data);
    }
  }

  lemma HeadOnWire(data: bytes)
    requires |data| >= 3
    ensures Pack(HEAD, [UnpackItem(UInt16, data[..2]), data[2]]) == Ok(data[..3])
  {
    ItemOfBytes(UInt16, data[..2]);
    ItemRanges();
    HeadBytes(UnpackItem(UInt16, data[..2]), data[2]);
    var count: nat := data[2];
    assert PackItem(UInt8, count) == BigEndian(count / 256, 0) + [count % 256] == [data[2]];
    assert data[..3] == data[..2] + [data[2]];
  }

  /** A pair on the wire: the length of the key, the key, and the value as four octets. */
  lemma EntryLayout(key: bytes, value: int)
    requires PackEntry(key, value).Ok?
    ensures var e := PackEntry(key, value).value;
      && |e| == |key| + 5 && e[0] == |key| && e[1..|key| + 1] == key
      && FromBigEndian(e[|key| + 1..]) == if value < 0 then value + 0x1_0000_0000 else value
  {
    OneInt32(value);
    ItemSpells(Int32, value);
    ItemRanges();
    assert Fits(Int32, -0x8000_0000) && !Fits(Int32, -0x8000_0001) && Fits(Int32, 0x7fff_ffff);
    assert Pow256(4) == 0x1_0000_0000 by {
      assert Pow256(2) == 0x10000 && Pow256(3) == 256 * Pow256(2);
    }
    var e, v := PackEntry(key, value).value, PackItem(Int32, value);
    assert e == ([|key|] + key) + v && e[|key| + 1..] == v;
  }

  /** A payload on the wire: two octets of version, one of count, then the pairs. */
  lemma WireLayout(version: int, es: seq<Pair>)
    requires Wire(version, es).Ok?
    ensures var w := Wire(version, es).value;
      && |w| >= 3 && (w[0] as int) * 256 + w[1] as int == version && w[2] == |es| && w[3..] == PackPairs(es).value
  {
    HeadFits(version, |es|);
    HeadBytes(version, |es|);
    ItemSpells(UInt16, version);
    ItemRanges();
    var w := Wire(version, es).value;
    var h := Pack(HEAD, [version, |es|]).value;
    assert w == h + PackPairs(es).value && w[..2] == h[..2] == PackItem(UInt16, version);
    FirstOctetLeads(w[0], [w[1]]);
    FirstOctetLeads(w[1], []);
    assert [w[0]] + [w[1]] == w[..2] && [w[1]] + [] == [w[1]];
  }

  /** Two maps with the same encoding are the same map. */
  lemma EncodingIsInjective(v1: int, p1: Parameters, v2: int, p2: Parameters)
    requires Encoded(v1, p1).Ok? && Encoded(v1, p1) == Encoded(v2, p2)
    ensures v1 == v2 && p1 == p2
  {
    var data := Encoded(v1, p1).value;
    ConfigRoundTrip(v1, p1, data);
    ConfigRoundTrip(v2, p2, data);
  }

  predicate Encodable(version: int, parameters: Parameters)
  {
    && 0 <= version < 0x10000
    && |parameters| <= 255
    && (forall k :: k in parameters ==> |k| <= 255 && -0x8000_0000 <= parameters[k] < 0x8000_0000)
  }

  lemma {:induction false} EntriesEncode(keys: seq<bytes>, parameters: Parameters)
    requires forall i :: 0 <= i < |keys| ==> keys[i] in parameters
    ensures PackEntries(keys, parameters).Ok?
       <==> forall k :: k in keys ==> |k| <= 255 && Fits(Int32, parameters[k])
  {
    if keys != [] {
      EntriesEncode(keys[1..], parameters);
      OneInt32(parameters[keys[0]]);
      assert forall k :: k in keys <==> k == keys[0] || k in keys[1..];
    }
  }

  /** Encoding succeeds exactly on the maps the format has room for. */
  lemma ConfigEncodes(version: int, parameters: Parameters)
    ensures Encoded(version, parameters).Ok? <==> Encodable(version, parameters)
  {
    KeyOrder();
    SortedKeys(parameters);
    ItemRanges();
    var keys := Sorted(parameters.Keys, Before);
    EntriesEncode(keys, parameters);
    assert forall k :: k in keys <==> k in Elements(keys);
    HeadFits(version, |parameters|);
  }

  lemma HeadFits(version: int, count: int)
    ensures Pack(HEAD, [version, count]).Ok? <==> Fits(UInt16, version) && Fits(UInt8, count)
  {
    var f, v := HEAD, [version, count];
    assert f[0] == UInt16 && v[0] == version && f[1] == UInt8 && v[1] == count;
  }
}
