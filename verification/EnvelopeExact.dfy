/** Exactly which bytes the decoder accepts and what it makes of them: varints, fields, messages, and the oneof. */
module EnvelopeExact {
  import opened Prelude
  import opened Wire
  import opened Envelope

  /** A varint: at most ten bytes of seven bits and 64 bits in all, all bytes but the last with the high bit set. */
  predicate VarintForm(b: Bytes) {
    && 1 <= |b| <= 10 && b[|b| - 1] < 128 && (forall i :: 0 <= i < |b| - 1 ==> b[i] >= 128)
    && (|b| == 10 ==> b[9] <= 1)
  }

  /** Its value: the lowest seven bits come first. */
  function VarintValue(b: Bytes): nat
    requires b != [] && (forall i :: 0 <= i < |b| - 1 ==> b[i] >= 128)
  {
    if |b| == 1 then b[0]
    else
      var low: int := b[0];
      assert b[0] >= 128 && forall i :: 0 <= i < |b[1..]| - 1 ==> b[1..][i] == b[i + 1];
      low - 128 + 128 * VarintValue(b[1..])
  }

  /** What remains of a varint when `i` of its bytes have been read. */
  ghost predicate VarintTail(b: Bytes, i: nat) {
    && 1 <= |b| <= 10 - i && b[|b| - 1] < 128 && (forall j :: 0 <= j < |b| - 1 ==> b[j] >= 128)
    && (|b| == 10 - i ==> b[|b| - 1] <= 1)
  }

  lemma {:induction false} TailDecodes(b: Bytes, rest: Bytes, i: nat)
    requires i <= 9 && VarintTail(b, i)
    ensures DecodeVarint(b + rest, i) == Some((VarintValue(b), rest))
    decreases |b|
  {
    if |b| == 1 {
      assert (b + rest)[1..] == rest;
    } else {
      assert (b + rest)[1..] == b[1..] + rest;
      assert forall j :: 0 <= j < |b[1..]| ==> b[1..][j] == b[j + 1];
      TailDecodes(b[1..], rest, i + 1);
    }
  }

  lemma {:induction false} DecodedTail(s: Bytes, i: nat) returns (b: Bytes)
    requires i <= 9 && DecodeVarint(s, i).Some?
    ensures var (n, rest) := DecodeVarint(s, i).value; VarintTail(b, i) && s == b + rest && VarintValue(b) == n
    decreases 10 - i
  {
    if s[0] < 128 {
      b := [s[0]];
    } else {
      assert i < 9;
      var more := DecodedTail(s[1..], i + 1);
      b := [s[0]] + more;
      assert b[1..] == more;
      assert forall j :: 0 <= j < |more| ==> more[j] == b[j + 1];
    }
  }

  /** A varint is read if and only if the input starts with one, and then with its value and what follows it. */
  lemma VarintExactly(s: Bytes, n: nat, rest: Bytes)
    ensures DecodeVarint(s) == Some((n, rest)) <==> exists b :: VarintForm(b) && VarintValue(b) == n && s == b + rest
  {
    if DecodeVarint(s) == Some((n, rest)) {
      var b := DecodedTail(s, 0);
      assert VarintForm(b);
    }
    if b :| VarintForm(b) && VarintValue(b) == n && s == b + rest {
      TailDecodes(b, rest, 0);
    }
  }

  /** A varint with value `n` at the front of `s`, then `rest`. */
  ghost predicate StartsWithVarint(s: Bytes, n: nat, rest: Bytes) {
    exists b :: VarintForm(b) && VarintValue(b) == n && s == b + rest
  }

  /** `s` is the field's key, of wire type 0, 1, 2 or 5, and then `s1`; that is the field's value and then `rest`. */
  ghost predicate FieldBetween(s: Bytes, f: Field, s1: Bytes, rest: Bytes) {
    match f
    case VarintField(num, v) => StartsWithVarint(s, 8 * num, s1) && StartsWithVarint(s1, v, rest)
    case BytesField(num, payload) =>
      StartsWithVarint(s, 8 * num + 2, s1) && StartsWithVarint(s1, |payload|, payload + rest)
    case OtherField(num) =>
      || (StartsWithVarint(s, 8 * num + 1, s1) && |s1| >= 8 && rest == s1[8..])
      || (StartsWithVarint(s, 8 * num + 5, s1) && |s1| >= 4 && rest == s1[4..])
  }

  ghost predicate StartsWithField(s: Bytes, f: Field, rest: Bytes) {
    f.num >= 1 && exists s1 :: FieldBetween(s, f, s1, rest)
  }

  lemma AllVarintsExactly()
    ensures forall s: Bytes, n: nat, rest: Bytes :: StartsWithVarint(s, n, rest) <==> DecodeVarint(s) == Some((n, rest))
  {
    forall s: Bytes, n: nat, rest: Bytes ensures StartsWithVarint(s, n, rest) <==> DecodeVarint(s) == Some((n, rest)) {
      VarintExactly(s, n, rest);
    }
  }

  lemma FieldStarts(s: Bytes, f: Field, rest: Bytes)
    requires NextField(s) == Some((f, rest))
    ensures StartsWithField(s, f, rest)
  {
    AllVarintsExactly();
    hide DecodeVarint, StartsWithVarint;
    var (key, s1) := DecodeVarint(s).value;
    assert StartsWithVarint(s, key, s1) && key == 8 * f.num + key % 8;
    if f.BytesField? {
      var (len, s2) := DecodeVarint(s1).value;
      assert s2 == f.payload + rest;
    }
    assert FieldBetween(s, f, s1, rest);
  }

  lemma StartedField(s: Bytes, f: Field, rest: Bytes)
    requires StartsWithField(s, f, rest)
    ensures NextField(s) == Some((f, rest))
  {
    AllVarintsExactly();
    hide DecodeVarint, StartsWithVarint;
    var s1 :| FieldBetween(s, f, s1, rest);
    if f.BytesField? {
      assert (f.payload + rest)[..|f.payload|] == f.payload && (f.payload + rest)[|f.payload|..] == rest;
    }
  }

  /** A field is split off if and only if the input starts with one. */
  lemma FieldExactly(s: Bytes, f: Field, rest: Bytes)
    ensures NextField(s) == Some((f, rest)) <==> StartsWithField(s, f, rest)
  {
    hide NextField, StartsWithField;
    if NextField(s) == Some((f, rest)) {
      FieldStarts(s, f, rest);
    }
    if StartsWithField(s, f, rest) {
      StartedField(s, f, rest);
    }
  }

  /** `text` is what the last length-delimited field `num` holds, or empty when there is none. */
  ghost predicate LastText(fs: seq<Field>, num: nat, text: Bytes) {
    || (text == [] && forall k :: 0 <= k < |fs| ==> !(fs[k].BytesField? && fs[k].num == num))
    || exists k ::
         && 0 <= k < |fs| && fs[k] == BytesField(num, text)
         && forall j :: k < j < |fs| ==> !(fs[j].BytesField? && fs[j].num == num)
  }

  /** `i` is the int64 of the last varint field `num`, or 0 when there is none. */
  ghost predicate LastInt(fs: seq<Field>, num: nat, i: Int64) {
    || (i == 0 && forall k :: 0 <= k < |fs| ==> !(fs[k].VarintField? && fs[k].num == num))
    || exists k ::
         && 0 <= k < |fs| && fs[k].VarintField? && fs[k].num == num && FromUint64(fs[k].value) == i
         && forall j :: k < j < |fs| ==> !(fs[j].VarintField? && fs[j].num == num)
  }

  function FoldText(fs: seq<Field>, num: nat, start: Bytes): Bytes {
    if fs == [] then start
    else FoldText(fs[1..], num, if fs[0].BytesField? && fs[0].num == num then fs[0].payload else start)
  }

  function FoldInt(fs: seq<Field>, num: nat, start: Int64): Int64 {
    if fs == [] then start
    else FoldInt(fs[1..], num, if fs[0].VarintField? && fs[0].num == num then FromUint64(fs[0].value) else start)
  }

  lemma {:induction false} FoldTextSnoc(fs: seq<Field>, f: Field, num: nat, start: Bytes)
    ensures FoldText(fs + [f], num, start)
            == if f.BytesField? && f.num == num then f.payload else FoldText(fs, num, start)
  {
    if fs == [] {
      assert fs + [f] == [f] && [f][1..] == [];
    } else {
      assert (fs + [f])[1..] == fs[1..] + [f];
      FoldTextSnoc(fs[1..], f, num, if fs[0].BytesField? && fs[0].num == num then fs[0].payload else start);
    }
  }

  lemma {:induction false} FoldIntSnoc(fs: seq<Field>, f: Field, num: nat, start: Int64)
    ensures FoldInt(fs + [f], num, start)
            == if f.VarintField? && f.num == num then FromUint64(f.value) else FoldInt(fs, num, start)
  {
    hide FromUint64;
    if fs == [] {
      assert fs + [f] == [f] && [f][1..] == [];
    } else {
      assert (fs + [f])[1..] == fs[1..] + [f];
      FoldIntSnoc(fs[1..], f, num, if fs[0].VarintField? && fs[0].num == num then FromUint64(fs[0].value) else start);
    }
  }

  lemma {:induction false} FoldTextIsLast(fs: seq<Field>, num: nat, text: Bytes)
    ensures FoldText(fs, num, []) == text <==> LastText(fs, num, text)
    decreases |fs|
  {
    if fs != [] {
      var shorter, last := fs[..|fs| - 1], fs[|fs| - 1];
      assert fs == shorter + [last];
      FoldTextSnoc(shorter, last, num, []);
      FoldTextIsLast(shorter, num, text);
      hide FoldText;
      if last.BytesField? && last.num == num {
        assert last.payload == text ==> fs[|fs| - 1] == BytesField(num, text);
      } else {
        if k :| 0 <= k < |shorter| && shorter[k] == BytesField(num, text)
                && forall j :: k < j < |shorter| ==> !(shorter[j].BytesField? && shorter[j].num == num) {
          assert fs[k] == BytesField(num, text);
        }
        if k :| 0 <= k < |fs| && fs[k] == BytesField(num, text)
                && forall j :: k < j < |fs| ==> !(fs[j].BytesField? && fs[j].num == num) {
          assert shorter[k] == BytesField(num, text);
        }
      }
    }
  }

  lemma {:induction false} FoldIntIsLast(fs: seq<Field>, num: nat, i: Int64)
    ensures FoldInt(fs, num, 0) == i <==> LastInt(fs, num, i)
    decreases |fs|
  {
    hide FromUint64;
    if fs != [] {
      var shorter, last := fs[..|fs| - 1], fs[|fs| - 1];
      assert fs == shorter + [last];
      FoldIntSnoc(shorter, last, num, 0);
      FoldIntIsLast(shorter, num, i);
      hide FoldInt;
      if last.VarintField? && last.num == num {
        assert FromUint64(last.value) == i ==> FromUint64(fs[|fs| - 1].value) == i;
      } else {
        if k :| 0 <= k < |shorter| && shorter[k].VarintField? && shorter[k].num == num
                && FromUint64(shorter[k].value) == i
                && forall j :: k < j < |shorter| ==> !(shorter[j].VarintField? && shorter[j].num == num) {
          assert fs[k] == shorter[k];
        }
        if k :| 0 <= k < |fs| && fs[k].VarintField? && fs[k].num == num && FromUint64(fs[k].value) == i
                && forall j :: k < j < |fs| ==> !(fs[j].VarintField? && fs[j].num == num) {
          assert shorter[k] == fs[k];
        }
      }
    }
  }

  function FoldPing(fs: seq<Field>, p: Ping): Ping {
    Ping(FoldInt(fs, 1, p.timestamp), FoldText(fs, 2, p.localAddr), FoldText(fs, 3, p.localPrivateAddr),
         FoldText(fs, 4, p.ip), FoldText(fs, 5, p.dc))
  }

  lemma {:induction false} PingFolds(s: Bytes, p: Ping)
    ensures DecodePing(s, p) == match Fields(s) { case None => None case Some(fs) => Some(FoldPing(fs, p)) }
    decreases |s|
  {
    hide NextField, FromUint64;
    if s != [] && NextField(s).Some? {
      var (f, rest) := NextField(s).value;
      PingFolds(rest, MergePing(p, f));
      if Fields(rest).Some? {
        FoldFirst(f, Fields(rest).value, p);
      }
    }
  }

  lemma FoldFirst(f: Field, later: seq<Field>, p: Ping)
    ensures FoldPing([f] + later, p) == FoldPing(later, MergePing(p, f))
  {
    assert ([f] + later)[1..] == later;
    hide FromUint64;
  }

  /** A ping is decoded if and only if its bytes are a list of fields, and then every field has its last value. */
  lemma PingDecodesExactly(s: Bytes, q: Ping)
    ensures DecodePing(s, NO_PING) == Some(q) <==>
            && Fields(s).Some?
            && var fs := Fields(s).value;
               && LastInt(fs, 1, q.timestamp) && LastText(fs, 2, q.localAddr) && LastText(fs, 3, q.localPrivateAddr)
               && LastText(fs, 4, q.ip) && LastText(fs, 5, q.dc)
  {
    PingFolds(s, NO_PING);
    if Fields(s).Some? {
      var fs := Fields(s).value;
      FoldIntIsLast(fs, 1, q.timestamp);
      FoldTextIsLast(fs, 2, q.localAddr);
      FoldTextIsLast(fs, 3, q.localPrivateAddr);
      FoldTextIsLast(fs, 4, q.ip);
      FoldTextIsLast(fs, 5, q.dc);
    }
    hide DecodePing, Fields, LastInt, LastText, FoldInt, FoldText;
  }

  lemma {:induction false} PacketFolds(s: Bytes, payload: Bytes)
    ensures DecodePacket(s, payload)
            == match Fields(s) { case None => None case Some(fs) => Some(FoldText(fs, 1, payload)) }
    decreases |s|
  {
    hide NextField;
    if s != [] && NextField(s).Some? {
      var (f, rest) := NextField(s).value;
      PacketFolds(rest, if f.BytesField? && f.num == 1 then f.payload else payload);
      if Fields(rest).Some? {
        assert ([f] + Fields(rest).value)[1..] == Fields(rest).value;
      }
    }
  }

  /** The same for a packet and its payload. */
  lemma PacketDecodesExactly(s: Bytes, payload: Bytes)
    ensures DecodePacket(s, []) == Some(payload) <==> Fields(s).Some? && LastText(Fields(s).value, 1, payload)
  {
    PacketFolds(s, []);
    if Fields(s).Some? {
      FoldTextIsLast(Fields(s).value, 1, payload);
    }
    hide DecodePacket, Fields, LastText, FoldText;
  }

  /** What a field says about the oneof: a ping in field 1, a packet in field 2; anything else there is an error. */
  ghost predicate Says(f: Field, e: Envelope) {
    f.BytesField? &&
    match e
    case PingType(p) => f.num == 1 && DecodePing(f.payload, NO_PING) == Some(p)
    case PacketType(payload) => f.num == 2 && DecodePacket(f.payload, []) == Some(payload)
    case NoType => false
  }

  predicate OfOneof(f: Field) {
    f.num == 1 || f.num == 2
  }

  ghost predicate AllSay(fs: seq<Field>) {
    forall k :: 0 <= k < |fs| && OfOneof(fs[k]) ==> exists d :: Says(fs[k], d)
  }

  /** The last field of the oneof says `e`; without any, `e` is `start`. */
  ghost predicate LastSaid(fs: seq<Field>, e: Envelope, start: Envelope) {
    || (e == start && forall k :: 0 <= k < |fs| ==> !OfOneof(fs[k]))
    || exists k :: 0 <= k < |fs| && Says(fs[k], e) && forall j :: k < j < |fs| ==> !OfOneof(fs[j])
  }

  ghost predicate LastSays(fs: seq<Field>, e: Envelope, start: Envelope) {
    AllSay(fs) && LastSaid(fs, e, start)
  }

  lemma OneofSays(e: Envelope, f: Field)
    ensures !OfOneof(f) ==> OneofUnmarshal(e, f) == Some(e) && forall d :: !Says(f, d)
    ensures OfOneof(f) ==> (OneofUnmarshal(e, f).Some? ==> Says(f, OneofUnmarshal(e, f).value))
    ensures OfOneof(f) ==> forall d :: Says(f, d) ==> OneofUnmarshal(e, f) == Some(d)
  {
    hide DecodePing, DecodePacket;
  }

  lemma LastSaysFirst(f: Field, later: seq<Field>, e: Envelope, start: Envelope)
    ensures !OfOneof(f) ==> (LastSays([f] + later, e, start) <==> LastSays(later, e, start))
    ensures forall d :: OfOneof(f) && Says(f, d) ==> (LastSays([f] + later, e, start) <==> LastSays(later, e, d))
    ensures OfOneof(f) && (forall d :: !Says(f, d)) ==> !LastSays([f] + later, e, start)
  {
    AllSayFirst(f, later);
    hide Says, OfOneof, AllSay, LastSaid;
    var fs := [f] + later;
    forall d | (OfOneof(f) && Says(f, d)) || (!OfOneof(f) && d == start)
      ensures LastSays(fs, e, start) <==> LastSays(later, e, d)
    {
      FirstSaid(f, later, e, start, d);
    }
  }

  lemma SaysNothingElse(f: Field)
    ensures !OfOneof(f) ==> forall d :: !Says(f, d)
    ensures forall d, d' :: Says(f, d) && Says(f, d') ==> d == d'
  {
    hide DecodePing, DecodePacket;
  }

  lemma FirstSaid(f: Field, later: seq<Field>, e: Envelope, start: Envelope, d: Envelope)
    requires (OfOneof(f) && Says(f, d)) || (!OfOneof(f) && d == start)
    ensures LastSays([f] + later, e, start) <==> LastSays(later, e, d)
  {
    AllSayFirst(f, later);
    if LastSaid(later, e, d) {
      LastSaidLater(f, later, e, start, d);
    }
    LastSaidFirst(f, later, e, start, d);
    hide AllSay, LastSaid, Says, OfOneof;
    assert OfOneof(f) ==> Says(f, d);
  }

  lemma AllSayFirst(f: Field, later: seq<Field>)
    ensures AllSay([f] + later) <==> (OfOneof(f) ==> exists d :: Says(f, d)) && AllSay(later)
  {
    hide Says, OfOneof;
    var fs := [f] + later;
    assert fs[0] == f && forall k :: 0 <= k < |later| ==> fs[k + 1] == later[k];
    if AllSay(fs) {
      forall k | 0 <= k < |later| && OfOneof(later[k]) ensures exists d :: Says(later[k], d) {
        assert fs[k + 1] == later[k];
      }
    }
  }

  lemma LastSaidLater(f: Field, later: seq<Field>, e: Envelope, start: Envelope, d: Envelope)
    requires (OfOneof(f) && Says(f, d)) || (!OfOneof(f) && d == start)
    requires LastSaid(later, e, d)
    ensures LastSaid([f] + later, e, start)
  {
    hide Says, OfOneof;
    var fs := [f] + later;
    assert fs[0] == f && forall k :: 0 <= k < |later| ==> fs[k + 1] == later[k];
    if k :| 0 <= k < |later| && Says(later[k], e) && forall j :: k < j < |later| ==> !OfOneof(later[j]) {
      assert Says(fs[k + 1], e);
    }
  }

  lemma LastSaidFirst(f: Field, later: seq<Field>, e: Envelope, start: Envelope, d: Envelope)
    requires (OfOneof(f) && Says(f, d)) || (!OfOneof(f) && d == start)
    ensures LastSaid([f] + later, e, start) ==> LastSaid(later, e, d)
  {
    SaysNothingElse(f);
    hide Says, OfOneof;
    var fs := [f] + later;
    assert fs[0] == f && forall k :: 0 <= k < |later| ==> later[k] == fs[k + 1];
    if k :| 0 < k < |fs| && Says(fs[k], e) && forall j :: k < j < |fs| ==> !OfOneof(fs[j]) {
      assert Says(later[k - 1], e);
    }
  }

  lemma {:induction false} UnmarshalSays(s: Bytes, start: Envelope, e: Envelope)
    ensures UnmarshalFrom(s, start) == Some(e) <==> Fields(s).Some? && LastSays(Fields(s).value, e, start)
    decreases |s|
  {
    hide NextField, OneofUnmarshal, Says, OfOneof;
    if s != [] && NextField(s).Some? {
      var (f, rest) := NextField(s).value;
      OneofSays(start, f);
      if OneofUnmarshal(start, f).Some? {
        UnmarshalSays(rest, OneofUnmarshal(start, f).value, e);
      }
      if Fields(rest).Some? {
        LastSaysFirst(f, Fields(rest).value, e, start);
      }
      hide LastSays;
    }
  }

  /**
   * Bytes are an envelope if and only if they are a list of fields in which every field 1 and 2 holds a ping or a
   * packet; the last of those is what the envelope holds, and fields with other numbers are skipped.
   */
  lemma UnmarshalExactly(s: Bytes, e: Envelope)
    ensures Unmarshal(s) == Some(e) <==> Fields(s).Some? && LastSays(Fields(s).value, e, NoType)
  {
    UnmarshalSays(s, NoType, e);
    hide UnmarshalFrom, Fields, LastSays;
  }
}
