/** The BER subset of the LDAP client: definite lengths as in section 8.1.3 of
    ITU-T X.690. One char stands for one byte. */
module Ber {
  import opened Text

  datatype Value = Value(tag: char, body: string)

  const FOUR_BYTES: nat := 0x1_0000_0000

  function BigEndian(n: nat): string {
    if n == 0 then "" else BigEndian(n / 256) + [(n % 256) as char]
  }

  /** encodeBERLength. */
  function EncodeLength(n: nat): string {
    if n < 128 then [n as char]
    else
      var buf := BigEndian(n);
      if |buf| > 127 then [0 as char] else [(128 + |buf|) as char] + buf
  }

  function EncodeTLV(tag: char, body: string): string {
    [tag] + EncodeLength(|body|) + body
  }

  function BytesValue(s: string): nat {
    if s == "" then 0 else BytesValue(s[..|s| - 1]) * 256 + s[|s| - 1] as int
  }

  /** decodeBERLength: the length and the size of its encoding. */
  function DecodeLength(data: string): Option<(nat, nat)> {
    if data == "" then None
    else
      var first := data[0] as int;
      if first < 128 then Some((first, 1))
      else
        var count := first - 128;
        if count == 0 || count > 4 || |data| < 1 + count then None
        else Some((BytesValue(data[1..1 + count]), 1 + count))
  }

  /** One round of parseBERChildren on non-empty data. */
  function ParseOne(data: string): (r: Option<(Value, string)>)
    ensures r.Some? ==> |r.value.1| < |data|
  {
    if |data| < 2 then None
    else
      match DecodeLength(data[1..])
      case None => None
      case Some((length, headerLen)) =>
        var start := 1 + headerLen;
        if start + length > |data| then None
        else Some((Value(data[0], data[start..start + length]), data[start + length..]))
  }

  function ParseAll(data: string): Option<seq<Value>>
    decreases |data|
  {
    if data == "" then Some([])
    else
      match ParseOne(data)
      case None => None
      case Some((v, rest)) =>
        match ParseAll(rest)
        case None => None
        case Some(vs) => Some([v] + vs)
  }

  function Prepend(values: seq<Value>, r: Option<seq<Value>>): Option<seq<Value>> {
    match r
    case None => None
    case Some(vs) => Some(values + vs)
  }

  lemma ParseStep(values: seq<Value>, rest: string)
    requires rest != ""
    ensures Prepend(values, ParseAll(rest)) ==
            match ParseOne(rest)
            case None => None
            case Some((v, tail)) => Prepend(values + [v], ParseAll(tail))
  {
    match ParseOne(rest)
    case None =>
    case Some((v, tail)) =>
      match ParseAll(tail)
      case None =>
      case Some(vs) => assert values + ([v] + vs) == values + [v] + vs;
  }

  lemma PrependNothing(r: Option<seq<Value>>)
    ensures Prepend([], r) == r
  {
    if r.Some? {
      assert [] + r.value == r.value;
    }
  }

  /** parseBERChildren. */
  method ParseChildren(data: string) returns (r: Option<seq<Value>>)
    ensures r == ParseAll(data)
  {
    var values, rest := [], data;
    PrependNothing(ParseAll(data));
    while rest != ""
      invariant ParseAll(data) == Prepend(values, ParseAll(rest))
      decreases |rest|
    {
      ParseStep(values, rest);
      var one := ParseOne(rest);
      if one.None? {
        return None;
      }
      values, rest := values + [one.value.0], one.value.1;
    }
    assert values + [] == values;
    return Some(values);
  }

  // ---- Lengths ------------------------------------------------------------------------------

  lemma {:induction false} BigEndianValue(n: nat)
    ensures BytesValue(BigEndian(n)) == n
  {
    if n > 0 {
      BigEndianValue(n / 256);
      var s := BigEndian(n);
      assert s[..|s| - 1] == BigEndian(n / 256);
    }
  }

  function Pow256(k: nat): nat { if k == 0 then 1 else 256 * Pow256(k - 1) }

  lemma {:induction false} BigEndianSize(n: nat, k: nat)
    ensures n < Pow256(k) <==> |BigEndian(n)| <= k
  {
    if n == 0 {
      PowPositive(k);
    } else if k == 0 {
    } else {
      BigEndianSize(n / 256, k - 1);
    }
  }

  lemma {:induction false} PowPositive(k: nat)
    ensures Pow256(k) >= 1
  {
    if k > 0 {
      PowPositive(k - 1);
    }
  }

  lemma LongLength(c: char, buf: string, rest: string)
    requires 1 <= |buf| <= 127 && c as int == 128 + |buf|
    ensures DecodeLength([c] + buf + rest) == if |buf| <= 4 then Some((BytesValue(buf), 1 + |buf|)) else None
  {
  }

  /** Lengths below 2^32 survive, whatever follows; longer ones are refused. */
  lemma LengthRoundTrip(n: nat, rest: string)
    requires n >= 128 ==> |BigEndian(n)| <= 127
    ensures EncodeLength(n) != ""
    ensures DecodeLength(EncodeLength(n) + rest) ==
            if n < FOUR_BYTES then Some((n, |EncodeLength(n)|)) else None
  {
    if n >= 128 {
      assert Pow256(4) == FOUR_BYTES;
      BigEndianSize(n, 4);
      BigEndianSize(n, 0);
      BigEndianValue(n);
      LongLength((128 + |BigEndian(n)|) as char, BigEndian(n), rest);
    }
  }

  // ---- Values ---------------------------------------------------------------------------------

  /** The first byte of an encoded length tells how long the encoding is. */
  lemma LengthHead(m: nat, n: nat)
    ensures EncodeLength(m) != "" && EncodeLength(n) != ""
    ensures EncodeLength(m)[0] == EncodeLength(n)[0] ==> |EncodeLength(m)| == |EncodeLength(n)|
  {
  }

  lemma ElementParts(tag: char, body: string, rest: string)
    ensures var p, k := EncodeTLV(tag, body) + rest, EncodeLength(|body|);
            && k != "" && |p| >= 1 + |k|
            && p[0] == tag && p[1] == k[0] && p[1 + |k|..] == body + rest
  {
    LengthHead(|body|, |body|);
  }

  /** Two elements with something after them that are the same text have the same
      tag, and the same text after their lengths. */
  lemma SameElement(s: char, a: string, x: string, t: char, b: string, y: string)
    requires EncodeTLV(s, a) + x == EncodeTLV(t, b) + y
    ensures s == t && a + x == b + y
  {
    ElementParts(s, a, x);
    ElementParts(t, b, y);
    LengthHead(|a|, |b|);
  }

  function EncodeAll(vs: seq<Value>): string {
    if vs == [] then "" else EncodeTLV(vs[0].tag, vs[0].body) + EncodeAll(vs[1..])
  }

  /** A body whose length a 64-bit int can hold. */
  predicate Sized(v: Value) { |BigEndian(|v.body|)| <= 8 }

  lemma OneRoundTrip(v: Value, rest: string)
    requires Sized(v)
    ensures ParseOne(EncodeTLV(v.tag, v.body) + rest) ==
            if |v.body| < FOUR_BYTES then Some((v, rest)) else None
  {
    var len := EncodeLength(|v.body|);
    var data := EncodeTLV(v.tag, v.body) + rest;
    LengthRoundTrip(|v.body|, v.body + rest);
    assert data[1..] == len + (v.body + rest);
    var start := 1 + |len|;
    assert data[start..start + |v.body|] == v.body && data[start + |v.body|..] == rest;
  }

  /** parseBERChildren inverts concatenated encodeTLV, exactly when every value
      is shorter than 2^32 bytes. */
  lemma {:induction false} ChildrenRoundTrip(vs: seq<Value>)
    requires forall i | 0 <= i < |vs| :: Sized(vs[i])
    ensures ParseAll(EncodeAll(vs)) == Some(vs) <==> forall i | 0 <= i < |vs| :: |vs[i].body| < FOUR_BYTES
  {
    if vs != [] {
      var v, rest := vs[0], vs[1..];
      OneRoundTrip(v, EncodeAll(rest));
      ChildrenRoundTrip(rest);
      assert vs == [v] + rest;
      assert EncodeAll(vs) != "";
      assert forall i | 0 <= i < |rest| :: rest[i] == vs[1 + i];
      if forall i | 0 <= i < |vs| :: |vs[i].body| < FOUR_BYTES {
        assert forall i | 0 <= i < |rest| :: |rest[i].body| < FOUR_BYTES;
      } else if |v.body| < FOUR_BYTES {
        assert exists i | 0 <= i < |rest| :: |rest[i].body| >= FOUR_BYTES;
      }
    }
  }
}
