/** Building and parsing MQTT packets (lib/myqtt-msg.c): the two-pass message builder and the fixed header. */
module Message {
  import opened Bytes
  import opened Wrappers
  import RemainingLength

  /* Control packet types, section 2.2.1 of MQTT 3.1.1. */
  const CONNECT: nat := 1
  const PUBLISH: nat := 3
  const SUBACK: nat := 9

  /** One entry of the builder's argument list. `NullRef` stands for a string or a payload whose pointer is NULL. */
  datatype Param =
    | Utf8(text: seq<byte>)
    | Binary(data: seq<byte>)
    | Int16(value: int)
    | Int8(value: int)
    | Skip
    | NullRef

  predicate Accepted(p: Param) {
    match p
    case Int16(v) => v <= 65535
    case Int8(v) => v <= 255
    case NullRef => false
    case _ => true
  }

  /** The bytes an argument contributes to the packet. */
  function Encoded(p: Param): seq<byte> {
    match p
    case Utf8(text) => Set16(|text|) + text
    case Binary(data) => data
    case Int16(v) => Set16(v)
    case Int8(v) => [Low(v)]
    case Skip => []
    case NullRef => []
  }

  /** The first `k` arguments, one behind the other. */
  function BodyTo(ps: seq<Param>, k: nat): seq<byte>
    requires k <= |ps|
  {
    if k == 0 then [] else BodyTo(ps, k - 1) + Encoded(ps[k - 1])
  }

  function Body(ps: seq<Param>): seq<byte> {
    BodyTo(ps, |ps|)
  }

  /** Where an argument starts in the body. */
  function Offset(ps: seq<Param>, k: nat): nat
    requires k <= |ps|
  {
    |BodyTo(ps, k)|
  }

  lemma {:induction false} BodyPrefix(ps: seq<Param>, k: nat, j: nat)
    requires k <= j <= |ps|
    ensures |BodyTo(ps, k)| <= |BodyTo(ps, j)|
    ensures forall i :: 0 <= i < |BodyTo(ps, k)| ==> BodyTo(ps, j)[i] == BodyTo(ps, k)[i]
  {
    hide Encoded;
    if k < j {
      BodyPrefix(ps, k, j - 1);
    }
  }

  /** An argument lies at its own offset, the next one right behind it; the last offset is the size. */
  lemma ParamAt(ps: seq<Param>, k: nat)
    requires k < |ps|
    ensures Offset(ps, k + 1) == Offset(ps, k) + |Encoded(ps[k])| <= |Body(ps)| == Offset(ps, |ps|)
    ensures Offset(ps, 0) == 0
    ensures forall i :: 0 <= i < |Encoded(ps[k])| ==> Body(ps)[Offset(ps, k) + i] == Encoded(ps[k])[i]
  {
    hide Encoded;
    BodyPrefix(ps, k + 1, |ps|);
    forall i | 0 <= i < |Encoded(ps[k])| ensures Body(ps)[Offset(ps, k) + i] == Encoded(ps[k])[i] {
      assert BodyTo(ps, k + 1)[Offset(ps, k) + i] == Encoded(ps[k])[i];
    }
  }

  /** The first byte of a packet. */
  datatype Flags = Flags(dup: bool, qos: nat, retain: bool)

  function One(b: bool): (n: nat)
    ensures n <= 1
  {
    if b then 1 else 0
  }

  function HeaderByte(kind: nat, flags: Flags): byte
    requires flags.qos <= 2
  {
    16 * (kind % 16) + 8 * One(flags.dup) + 2 * flags.qos + One(flags.retain)
  }

  /** A whole packet: header byte, size field, arguments. */
  function Packet(kind: nat, flags: Flags, body: seq<byte>): seq<byte>
    requires flags.qos <= 2
  {
    [HeaderByte(kind, flags)] + RemainingLength.Encoding(|body|) + body
  }

  /** When the builder produces a packet. */
  predicate Buildable(flags: Flags, ps: seq<Param>) {
    && flags.qos <= 2
    && |ps| <= 20 && (forall k :: 0 <= k < |ps| ==> Accepted(ps[k]))
    && |Body(ps)| <= RemainingLength.MAX_LENGTH
  }

  /** The size one argument takes, or a refusal. */
  method MeasureParam(p: Param) returns (ok: bool, refSize: nat)
    ensures ok <==> Accepted(p)
    ensures ok ==> refSize == |Encoded(p)|
  {
    match p {
      case Utf8(text) => return true, |text| + 2;
      case Binary(data) => return true, |data|;
      case Int16(v) => return v <= 65535, 2;
      case Int8(v) => return v <= 255, 1;
      case Skip => return true, 0;
      case NullRef => return false, 0;
    }
  }

  /** First pass: the size of the arguments, or a refusal. */
  method MeasureParams(ps: seq<Param>) returns (ok: bool, totalSize: nat)
    ensures ok <==> |ps| <= 20 && forall k :: 0 <= k < |ps| ==> Accepted(ps[k])
    ensures ok ==> totalSize == |Body(ps)|
  {
    hide Encoded;
    totalSize := 0;
    var count := 0;
    while count < |ps|
      invariant count <= |ps| && count <= 20
      invariant forall k :: 0 <= k < count ==> Accepted(ps[k])
      invariant totalSize == |BodyTo(ps, count)|
    {
      var accepted, refSize := MeasureParam(ps[count]);
      if !accepted {
        return false, totalSize;
      }
      totalSize := totalSize + refSize;
      count := count + 1;
      if count > 20 {
        return false, totalSize;
      }
    }
    return true, totalSize;
  }

  /** Stores the low 16 bits of a value, the high byte first. */
  method Store16(result: array<byte>, at: nat, value: int)
    requires at + 2 <= result.Length
    modifies result
    ensures result[..at + 2] == old(result[..at]) + Set16(value) && result[at + 2..] == old(result[at + 2..])
  {
    result[at], result[at + 1] := Low(value / 256), Low(value);
  }

  method Copy(result: array<byte>, at: nat, src: seq<byte>)
    requires at + |src| <= result.Length
    modifies result
    ensures result[..at + |src|] == old(result[..at]) + src
  {
    forall k | 0 <= k < |src| {
      result[at + k] := src[k];
    }
  }

  /** Stores a string behind its length. */
  method StoreText(result: array<byte>, at: nat, text: seq<byte>) returns (next: nat)
    requires at + 2 + |text| <= result.Length
    modifies result
    ensures next == at + 2 + |text| && result[..next] == old(result[..at]) + (Set16(|text|) + text)
  {
    hide Set16;
    Store16(result, at, |text|);
    ghost var before := result[..at + 2];
    Copy(result, at + 2, text);
    next := at + 2 + |text|;
    Regroup(old(result[..at]), Set16(|text|), text);
  }

  /** Stores one argument at `at`, by its type; returns where the next one goes. */
  method StoreParam(result: array<byte>, at: nat, p: Param) returns (next: nat)
    requires at + |Encoded(p)| <= result.Length
    modifies result
    ensures next == at + |Encoded(p)| && result[..next] == old(result[..at]) + Encoded(p)
  {
    next := at;
    match p {
      case Utf8(text) =>
        next := StoreText(result, next, text);
      case Int8(v) =>
        result[next] := Low(v);
        next := next + 1;
      case Int16(v) =>
        Store16(result, next, v);
        next := next + 2;
      case Binary(data) =>
        Copy(result, next, data);
        next := next + |data|;
      case Skip =>
      case NullRef =>
    }
  }

  /** Second pass: stores every argument behind the `start` bytes of header. */
  method StoreParams(result: array<byte>, start: nat, ps: seq<Param>) returns (end: nat)
    requires start + |Body(ps)| < result.Length
    modifies result
    ensures end == start + |Body(ps)| && result[..end] == old(result[..start]) + Body(ps)
  {
    hide BodyTo, Encoded;
    end := start;
    ghost var header := result[..start];
    StoredStep(header, ps, 0);
    for count := 0 to |ps|
      invariant end == start + |BodyTo(ps, count)| <= start + |Body(ps)|
      invariant result[..end] == header + BodyTo(ps, count)
    {
      StoredStep(header, ps, count);
      end := StoreParam(result, end, ps[count]);
    }
  }

  lemma StoredStep(header: seq<byte>, ps: seq<Param>, k: nat)
    requires k <= |ps|
    ensures header + BodyTo(ps, 0) == header && |BodyTo(ps, k)| <= |Body(ps)|
    ensures k < |ps| ==>
              && header + BodyTo(ps, k + 1) == header + BodyTo(ps, k) + Encoded(ps[k])
              && |BodyTo(ps, k + 1)| == |BodyTo(ps, k)| + |Encoded(ps[k])| <= |Body(ps)|
  {
    hide Encoded;
    BodyPrefix(ps, k, |ps|);
    if k < |ps| {
      BodyPrefix(ps, k + 1, |ps|);
    }
  }

  lemma HeaderHalves(k: nat, d: nat, q: nat, r: nat)
    requires k < 16 && d < 2 && q <= 2 && r < 2
    ensures var b := 16 * k + 8 * d + 2 * q + r;
            && b < 256 && b / 16 == k && b % 2 == r
            && b / 2 == 8 * k + 4 * d + q && b / 2 % 4 == q
            && b / 2 / 2 == 4 * k + 2 * d + q / 2 && b / 2 / 2 / 2 == 2 * k + d
            && b / 2 / 2 / 2 % 2 == d
  {
  }

  lemma HeaderBits(kind: nat, flags: Flags)
    requires flags.qos <= 2
    ensures var b0: byte := kind % 16 * 16;
            var b1 := if flags.dup then SetBit(b0, 3) else b0;
            var b2 := if flags.retain then SetBit(b1, 0) else b1;
            HeaderByte(kind, flags) == if flags.qos == 1 then SetBit(b2, 1) else if flags.qos == 2 then SetBit(b2, 2) else b2
  {
    var (k, d, r) := (kind % 16, One(flags.dup), One(flags.retain));
    PowersOfTwo();
    SetInHeader(k, 0, 0, 0);
    SetInHeader(k, d, 0, 0);
    SetInHeader(k, d, 0, r);
  }

  lemma SetInHeader(k: nat, d: nat, q: nat, r: nat)
    requires k < 16 && d < 2 && q == 0 && r < 2
    ensures var b: byte := 16 * k + 8 * d + 2 * q + r;
            && (d == 0 ==> SetBit(b, 3) == b + 8) && (r == 0 ==> SetBit(b, 0) == b + 1)
            && SetBit(b, 1) == b + 2 && SetBit(b, 2) == b + 4
  {
    HeaderHalves(k, d, q, r);
    LowBits(16 * k + 8 * d + 2 * q + r);
    PowersOfTwo();
  }

  /** The first byte, set bit by bit. */
  method StoreHeaderByte(result: array<byte>, kind: nat, flags: Flags)
    requires 0 < result.Length && flags.qos <= 2
    modifies result
    ensures result[0] == HeaderByte(kind, flags)
    ensures forall k :: 0 < k < result.Length ==> result[k] == old(result[k])
  {
    HeaderBits(kind, flags);
    result[0] := kind % 16 * 16;
    if flags.dup {
      result[0] := SetBit(result[0], 3);
    }
    if flags.retain {
      result[0] := SetBit(result[0], 0);
    }
    if flags.qos == 1 {
      result[0] := SetBit(result[0], 1);
    } else if flags.qos == 2 {
      result[0] := SetBit(result[0], 2);
    }
  }

  /** The size of the fixed header in front of a body, from the builder's own thresholds; 0 when there is none. */
  function HeaderSize(totalSize: nat): (n: nat)
    ensures totalSize <= RemainingLength.MAX_LENGTH ==> n == 1 + |RemainingLength.Encoding(totalSize)| <= 5
    ensures n == 0 <==> RemainingLength.MAX_LENGTH < totalSize
  {
    RemainingLength.EncodingSize(totalSize);
    if totalSize <= 127 then 2
    else if totalSize <= 16383 then 3
    else if totalSize <= 2097151 then 4
    else if totalSize <= 268435455 then 5
    else 0
  }

  /** The fixed header, at the front of the buffer. */
  method StoreHeader(result: array<byte>, kind: nat, flags: Flags, bodySize: nat) returns (at: nat)
    requires flags.qos <= 2 && bodySize <= RemainingLength.MAX_LENGTH && HeaderSize(bodySize) <= result.Length
    modifies result
    ensures at == HeaderSize(bodySize)
    ensures result[..at] == [HeaderByte(kind, flags)] + RemainingLength.Encoding(bodySize)
  {
    StoreHeaderByte(result, kind, flags);
    var encoded, position := RemainingLength.Encode(result, 1, bodySize);
    at := 1 + position;
    assert result[..at] == [result[0]] + result[1..1 + position];
  }

  /** Builds a packet, or refuses; the buffer is one byte larger than the packet. */
  method Build(kind: nat, flags: Flags, ps: seq<Param>) returns (result: Option<array<byte>>, size: nat)
    ensures result.Some? <==> Buildable(flags, ps)
    ensures result.Some? ==>
              && fresh(result.value) && result.value.Length == size + 1
              && result.value[..size] == Packet(kind, flags, Body(ps))
  {
    if flags.qos != 0 && flags.qos != 1 && flags.qos != 2 {
      return None, 0;
    }
    var ok, totalSize := MeasureParams(ps);
    if !ok {
      return None, 0;
    }
    var totalHeader := HeaderSize(totalSize);
    if totalHeader == 0 {
      return None, 0;
    }
    size := totalSize + totalHeader;
    var buffer := new byte[size + 1];
    var at := StoreHeader(buffer, kind, flags, totalSize);
    at := StoreParams(buffer, at, ps);
    return Some(buffer), size;
  }

  /* ---------- Reading the fixed header back ---------- */

  /** What the reader takes from a fixed header. */
  datatype Header = Header(kind: nat, flags: Flags, remaining: nat, size: nat)

  /** The fixed header at the front of a byte stream, when its size field is well formed. */
  function ReadHeader(bs: seq<byte>): (h: Option<Header>)
    ensures h.Some? ==> 2 <= h.value.size <= |bs|
  {
    if |bs| < 2 || RemainingLength.FieldSize(bs[1..], 0) == 0 then None
    else
      var k := RemainingLength.FieldSize(bs[1..], 0);
      FieldFits(bs[1..], 0);
      Some(Header(bs[0] / 16, Flags(Bit(bs[0], 3), bs[0] / 2 % 4, Bit(bs[0], 0)),
                  RemainingLength.Value(bs[1..][..k]), 1 + k))
  }

  lemma {:induction false} FieldFits(bs: seq<byte>, i: nat)
    requires i <= 4
    ensures RemainingLength.FieldSize(bs, i) <= |bs|
    decreases 4 - i
  {
    if i < 4 && i < |bs| && bs[i] >= 128 {
      FieldFits(bs, i + 1);
    }
  }

  lemma FlagsOfHeaderByte(kind: nat, flags: Flags)
    requires kind < 16 && flags.qos <= 2
    ensures var b := HeaderByte(kind, flags);
            b / 16 == kind && Flags(Bit(b, 3), b / 2 % 4, Bit(b, 0)) == flags
  {
    hide Bit;
    HeaderLowBits(kind, One(flags.dup), flags.qos, One(flags.retain));
  }

  lemma HeaderLowBits(k: nat, d: nat, q: nat, r: nat)
    requires k < 16 && d < 2 && q <= 2 && r < 2
    ensures var b: byte := 16 * k + 8 * d + 2 * q + r;
            b / 16 == k && b / 2 % 4 == q && (Bit(b, 3) <==> d == 1) && (Bit(b, 0) <==> r == 1)
  {
    hide Bit;
    HeaderHalves(k, d, q, r);
    LowBits(16 * k + 8 * d + 2 * q + r);
  }

  /** A built packet announces its own type, flags and size, whatever follows it on the wire. */
  lemma HeaderRoundTrip(kind: nat, flags: Flags, body: seq<byte>, rest: seq<byte>)
    requires kind < 16 && flags.qos <= 2 && |body| <= RemainingLength.MAX_LENGTH
    ensures var wire := Packet(kind, flags, body) + rest;
            && ReadHeader(wire) == Some(Header(kind, flags, |body|, 1 + |RemainingLength.Encoding(|body|)|))
            && wire[ReadHeader(wire).value.size..] == body + rest
  {
    hide Bit, HeaderByte, RemainingLength.Encoding, RemainingLength.FieldSize, RemainingLength.Value;
    var field := RemainingLength.Encoding(|body|);
    var wire := Packet(kind, flags, body) + rest;
    RemainingLength.RoundTrip(|body|, body + rest);
    assert wire[1..] == field + (body + rest);
    FlagsOfHeaderByte(kind, flags);
    assert wire[0] == HeaderByte(kind, flags);
    assert wire[1 + |field|..] == body + rest;
  }
}
