/** UTF-8 as defined by RFC 3629, sections 3 and 4. */
module Utf8 {
  import opened Common

  /** A Unicode scalar value. */
  type Scalar = c: int | 0 <= c <= 0x10FFFF && !(0xD800 <= c <= 0xDFFF)

  /** The octets of one scalar value (section 3). */
  function EncodeOne(c: Scalar): (r: seq<Byte>)
    ensures 1 <= |r| <= 4
  {
    if c <= 0x7F then [c]
    else if c <= 0x7FF then [0xC0 + c / 64, 0x80 + c % 64]
    else if c <= 0xFFFF then [0xE0 + c / 4096, 0x80 + c / 64 % 64, 0x80 + c % 64]
    else [0xF0 + c / 262144, 0x80 + c / 4096 % 64, 0x80 + c / 64 % 64, 0x80 + c % 64]
  }

  function Encode(s: seq<Scalar>): seq<Byte> {
    if s == [] then [] else EncodeOne(s[0]) + Encode(s[1..])
  }

  predicate IsTail(b: seq<Byte>, i: nat) {
    i < |b| && 0x80 <= b[i] <= 0xBF
  }

  predicate Between(b: seq<Byte>, i: nat, lo: int, hi: int) {
    i < |b| && lo <= b[i] <= hi
  }

  /** Length of the well-formed sequence at the start of `b` (the grammar of section 4), or 0. */
  function Lead(b: seq<Byte>): (n: nat)
    ensures n <= 4 && n <= |b|
  {
    if b == [] then 0
    else if b[0] <= 0x7F then 1
    else if 0xC2 <= b[0] <= 0xDF then (if IsTail(b, 1) then 2 else 0)
    else if 0xE0 <= b[0] <= 0xEF then
      var lo := if b[0] == 0xE0 then 0xA0 else 0x80;
      var hi := if b[0] == 0xED then 0x9F else 0xBF;
      if Between(b, 1, lo, hi) && IsTail(b, 2) then 3 else 0
    else if 0xF0 <= b[0] <= 0xF4 then
      var lo := if b[0] == 0xF0 then 0x90 else 0x80;
      var hi := if b[0] == 0xF4 then 0x8F else 0xBF;
      if Between(b, 1, lo, hi) && IsTail(b, 2) && IsTail(b, 3) then 4 else 0
    else 0
  }

  /** What an octet carries above the marker bits `base`. */
  function Payload(x: Byte, base: int): int {
    x - base
  }

  /** The scalar value of the well-formed sequence at the start of `b`. */
  function DecodeOne(b: seq<Byte>): (c: Scalar)
    requires Lead(b) > 0
  {
    match Lead(b)
    case 1 => Payload(b[0], 0)
    case 2 => Payload(b[0], 0xC0) * 64 + Payload(b[1], 0x80)
    case 3 => Payload(b[0], 0xE0) * 4096 + Payload(b[1], 0x80) * 64 + Payload(b[2], 0x80)
    case _ =>
      Payload(b[0], 0xF0) * 262144 + Payload(b[1], 0x80) * 4096 + Payload(b[2], 0x80) * 64 + Payload(b[3], 0x80)
  }

  /** Strict decoding: None at the first ill-formed sequence. */
  function Decode(b: seq<Byte>): Option<seq<Scalar>> {
    if b == [] then Some([])
    else if Lead(b) == 0 then None
    else
      var rest := Decode(b[Lead(b)..]);
      if rest.None? then None else Some([DecodeOne(b)] + rest.value)
  }

  lemma SplitLast(c: nat)
    ensures c == c / 64 * 64 + c % 64
    ensures c / 64 / 64 == c / 4096 && c / 4096 / 64 == c / 262144
  {
  }

  lemma JoinLast(high: nat, low: nat)
    requires low < 64
    ensures (high * 64 + low) / 64 == high && (high * 64 + low) % 64 == low
  {
  }

  lemma LeadEncoded2(c: Scalar, more: seq<Byte>)
    requires 0x7F < c <= 0x7FF
    ensures Lead(EncodeOne(c) + more) == 2 && DecodeOne(EncodeOne(c) + more) == c
  {
    var e := EncodeOne(c);
    var b := e + more;
    assert b[0] == e[0] && b[1] == e[1];
  }

  lemma LeadEncoded3(c: Scalar, more: seq<Byte>)
    requires 0x7FF < c <= 0xFFFF
    ensures Lead(EncodeOne(c) + more) == 3 && DecodeOne(EncodeOne(c) + more) == c
  {
    var e := EncodeOne(c);
    var b := e + more;
    assert b[0] == e[0] && b[1] == e[1] && b[2] == e[2];
    SplitLast(c);
    SplitLast(c / 64);
  }

  lemma LeadEncoded4(c: Scalar, more: seq<Byte>)
    requires 0xFFFF < c
    ensures Lead(EncodeOne(c) + more) == 4 && DecodeOne(EncodeOne(c) + more) == c
  {
    var e := EncodeOne(c);
    var b := e + more;
    assert b[0] == e[0] && b[1] == e[1] && b[2] == e[2] && b[3] == e[3];
    SplitLast(c);
    SplitLast(c / 64);
    SplitLast(c / 4096);
  }

  lemma LeadEncoded(c: Scalar, more: seq<Byte>)
    ensures Lead(EncodeOne(c) + more) == |EncodeOne(c)|
    ensures DecodeOne(EncodeOne(c) + more) == c
  {
    if c <= 0x7F {
      assert (EncodeOne(c) + more)[0] == c;
    } else if c <= 0x7FF {
      LeadEncoded2(c, more);
    } else if c <= 0xFFFF {
      LeadEncoded3(c, more);
    } else {
      LeadEncoded4(c, more);
    }
  }

  /** The digits of a joined value, to base 64. */
  lemma Digits(d0: nat, d1: nat, d2: nat, d3: nat)
    requires d1 < 64 && d2 < 64 && d3 < 64
    ensures var c := ((d0 * 64 + d1) * 64 + d2) * 64 + d3;
      c % 64 == d3 && c / 64 % 64 == d2 && c / 4096 % 64 == d1 && c / 262144 == d0
  {
    var c2 := (d0 * 64 + d1) * 64 + d2;
    JoinLast(c2, d3);
    JoinLast(d0 * 64 + d1, d2);
    JoinLast(d0, d1);
    SplitLast(c2 * 64 + d3);
  }

  lemma EncodedLead2(b: seq<Byte>)
    requires Lead(b) == 2
    ensures EncodeOne(DecodeOne(b)) == b[..2]
  {
    Digits(0, 0, Payload(b[0], 0xC0), Payload(b[1], 0x80));
  }

  lemma EncodedLead3(b: seq<Byte>)
    requires Lead(b) == 3
    ensures EncodeOne(DecodeOne(b)) == b[..3]
  {
    Digits(0, Payload(b[0], 0xE0), Payload(b[1], 0x80), Payload(b[2], 0x80));
  }

  lemma EncodedLead4(b: seq<Byte>)
    requires Lead(b) == 4
    ensures EncodeOne(DecodeOne(b)) == b[..4]
  {
    Digits(Payload(b[0], 0xF0), Payload(b[1], 0x80), Payload(b[2], 0x80), Payload(b[3], 0x80));
  }

  lemma EncodedLead(b: seq<Byte>)
    requires Lead(b) > 0
    ensures EncodeOne(DecodeOne(b)) == b[..Lead(b)]
  {
    match Lead(b)
    case 1 =>
    case 2 => EncodedLead2(b);
    case 3 => EncodedLead3(b);
    case _ => EncodedLead4(b);
  }

  lemma {:induction false} DecodeEncode(s: seq<Scalar>)
    ensures Decode(Encode(s)) == Some(s)
  {
    if s != [] {
      var first, rest := EncodeOne(s[0]), Encode(s[1..]);
      LeadEncoded(s[0], rest);
      DecodeEncode(s[1..]);
      assert (first + rest)[|first|..] == rest;
      assert [s[0]] + s[1..] == s;
    }
  }

  lemma {:induction false} EncodeDecode(b: seq<Byte>)
    requires Decode(b).Some?
    ensures Encode(Decode(b).value) == b
    decreases |b|
  {
    if b != [] {
      EncodedLead(b);
      EncodeDecode(b[Lead(b)..]);
      var s := Decode(b).value;
      assert s[1..] == Decode(b[Lead(b)..]).value;
      assert b == b[..Lead(b)] + b[Lead(b)..];
    }
  }

  /** UTF-8 is a bijection between scalar sequences and the octet strings the decoder accepts. */
  lemma Utf8Bijection(b: seq<Byte>, s: seq<Scalar>)
    ensures Decode(b) == Some(s) <==> b == Encode(s)
  {
    DecodeEncode(s);
    if Decode(b) == Some(s) {
      EncodeDecode(b);
    }
  }

  /** `e` is a leading octet in [lead, lead + room) and `|e| - 1` octets 10xxxxxx. */
  predicate Marked(e: seq<Byte>, lead: int, room: int) {
    && e != [] && lead <= e[0] < lead + room
    && forall i :: 1 <= i < |e| ==> 128 <= e[i] < 192
  }

  /** The table of section 3: as many octets as the character needs, and its bits in them, highest first. */
  lemma OctetsExactly(c: Scalar)
    ensures var e := EncodeOne(c);
      var b := (i: nat) => if i < |e| then e[i] as int else 0;
      if c < 0x80 then |e| == 1 && b(0) == c
      else if c < 0x800 then |e| == 2 && Marked(e, 192, 32) && c == 64 * (b(0) - 192) + (b(1) - 128)
      else if c < 0x10000 then
        |e| == 3 && Marked(e, 224, 16) && c == 4096 * (b(0) - 224) + 64 * (b(1) - 128) + (b(2) - 128)
      else
        |e| == 4 && Marked(e, 240, 8)
        && c == 262144 * (b(0) - 240) + 4096 * (b(1) - 128) + 64 * (b(2) - 128) + (b(3) - 128)
  {
    SplitLast(c);
    SplitLast(c / 64);
    SplitLast(c / 4096);
  }
}
