/** Base-128 varints and length-delimited fields of the Protocol Buffers encoding specification. */
module Wire {
  import opened Prelude

  const TWO_63: int := 0x8000_0000_0000_0000
  const TWO_64: nat := 0x1_0000_0000_0000_0000

  type Int64 = i: int | -TWO_63 <= i < TWO_63

  /** Two's complement: how an int64 is carried by a varint, and back. */
  function ToUint64(i: Int64): nat {
    if i < 0 then i + TWO_64 else i
  }

  function FromUint64(n: nat): Int64 {
    var m := n % TWO_64;
    if m < TWO_63 then m else m - TWO_64
  }

  const VARINT := 0
  const FIXED64 := 1
  const BYTES := 2
  const FIXED32 := 5

  function Varint(n: nat): Bytes {
    if n < 128 then [n] else [n % 128 + 128] + Varint(n / 128)
  }

  function SizeVarint(n: nat): nat {
    if n < 128 then 1 else 1 + SizeVarint(n / 128)
  }

  /** Reads a varint of which `i` bytes have been read; at most ten bytes, and the tenth at most 1. */
  function DecodeVarint(s: Bytes, i: nat := 0): (r: Option<(nat, Bytes)>)
    requires i <= 10
    ensures r.Some? ==> |r.value.1| < |s|
    decreases 10 - i
  {
    if s == [] || i == 10 then None
    else
      var low: int := s[0];
      if low < 128 then
        if i == 9 && low > 1 then None else Some((low, s[1..]))
      else
        match DecodeVarint(s[1..], i + 1)
        case None => None
        case Some((high, rest)) => Some((low - 128 + 128 * high, rest))
  }

  /** The first number that no longer fits when `i` of the ten bytes are used up. */
  function Limit(i: nat): nat
    requires i <= 9
    decreases 9 - i
  {
    if i == 9 then 2 else 128 * Limit(i + 1)
  }

  lemma VarintLength(n: nat)
    ensures |Varint(n)| == SizeVarint(n)
  {
  }

  lemma {:induction false} VarintRoundTrip(n: nat, i: nat, rest: Bytes)
    requires i <= 9 && n < Limit(i)
    ensures DecodeVarint(Varint(n) + rest, i) == Some((n, rest))
    decreases n
  {
    var s := Varint(n) + rest;
    if n < 128 {
      assert s[1..] == rest;
    } else {
      VarintRoundTrip(n / 128, i + 1, rest);
      assert s[1..] == Varint(n / 128) + rest;
    }
  }

  lemma DecodeUint64(n: nat, rest: Bytes)
    requires n < TWO_64
    ensures DecodeVarint(Varint(n) + rest) == Some((n, rest))
  {
    assert Limit(5) == 0x2000_0000;
    assert Limit(0) == TWO_64;
    VarintRoundTrip(n, 0, rest);
  }

  /** One field as it lies on the wire. */
  datatype Field =
    | VarintField(num: nat, value: nat)
    | BytesField(num: nat, payload: Bytes)
    | OtherField(num: nat)

  /** Splits the first field off `s`. Groups (wire types 3 and 4) are not part of this model and read as malformed. */
  function NextField(s: Bytes): (r: Option<(Field, Bytes)>)
    ensures r.Some? ==> |r.value.1| < |s|
  {
    match DecodeVarint(s)
    case None => None
    case Some((key, s1)) =>
      var num, wire := key / 8, key % 8;
      if num == 0 then None
      else if wire == VARINT then
        match DecodeVarint(s1)
        case None => None
        case Some((v, rest)) => Some((VarintField(num, v), rest))
      else if wire == BYTES then
        match DecodeVarint(s1)
        case None => None
        case Some((len, s2)) => if |s2| < len then None else Some((BytesField(num, s2[..len]), s2[len..]))
      else if wire == FIXED64 && |s1| >= 8 then Some((OtherField(num), s1[8..]))
      else if wire == FIXED32 && |s1| >= 4 then Some((OtherField(num), s1[4..]))
      else None
  }

  function LengthDelimited(num: nat, payload: Bytes): Bytes {
    Varint(8 * num + BYTES) + Varint(|payload|) + payload
  }

  lemma NextVarintField(num: nat, v: nat, rest: Bytes)
    requires 1 <= num < 16 && v < TWO_64
    ensures NextField(Varint(8 * num + VARINT) + Varint(v) + rest) == Some((VarintField(num, v), rest))
  {
    hide DecodeVarint;
    assert Varint(8 * num + VARINT) + Varint(v) + rest == Varint(8 * num + VARINT) + (Varint(v) + rest);
    DecodeUint64(8 * num + VARINT, Varint(v) + rest);
    DecodeUint64(v, rest);
  }

  lemma NextBytesField(num: nat, payload: Bytes, rest: Bytes)
    requires 1 <= num < 16 && |payload| < TWO_64
    ensures NextField(LengthDelimited(num, payload) + rest) == Some((BytesField(num, payload), rest))
  {
    hide DecodeVarint, Varint;
    var s2 := payload + rest;
    assert LengthDelimited(num, payload) + rest == Varint(8 * num + BYTES) + (Varint(|payload|) + s2);
    DecodeUint64(8 * num + BYTES, Varint(|payload|) + s2);
    DecodeUint64(|payload|, s2);
    assert s2[..|payload|] == payload && s2[|payload|..] == rest;
  }
}
