/** The variable-length size field of the fixed header (lib/myqtt-msg.c; section 2.2.3 of MQTT 3.1.1). */
module RemainingLength {
  import opened Bytes

  const MAX_LENGTH: nat := 268435455

  /** The encoding of a length: seven bits a byte, least significant first, 128 marking that more follow. */
  function Encoding(v: nat): (bs: seq<byte>)
    ensures 0 < |bs|
  {
    if v < 128 then [v] else [v % 128 + 128] + Encoding(v / 128)
  }

  /** How many of the leading bytes of `bs` form a size field: up to the first without the mark, at most four. */
  function FieldSize(bs: seq<byte>, i: nat): (k: nat)
    requires i <= 4
    ensures i < k <= 4 || k == 0
    decreases 4 - i
  {
    if i == 4 || |bs| <= i then 0
    else if bs[i] < 128 then i + 1
    else FieldSize(bs, i + 1)
  }

  /** The number that a size field stands for. */
  function Value(field: seq<byte>): nat {
    if field == [] then 0 else field[0] % 128 + 128 * Value(field[1..])
  }

  function Power128(k: nat): nat {
    if k == 0 then 1 else 128 * Power128(k - 1)
  }

  /** C's remainder and quotient by 128, which truncate towards zero. */
  function Remainder(v: int): int {
    if v < 0 then -(-v % 128) else v % 128
  }

  function Quotient(v: int): int {
    if v < 0 then -(-v / 128) else v / 128
  }

  /** Writes the size field of `value` at `start`. A negative value takes one meaningless byte. */
  method Encode(input: array<byte>, start: nat, value: int) returns (ok: bool, position: nat)
    requires start + (if value < 0 then 1 else if value <= MAX_LENGTH then |Encoding(value)| else 4) <= input.Length
    modifies input
    ensures ok <==> value <= MAX_LENGTH
    ensures 0 <= value <= MAX_LENGTH ==>
              position == |Encoding(value)| && input[start..start + position] == Encoding(value)
    ensures forall k :: 0 <= k < input.Length && (k < start || start + 4 <= k) ==> input[k] == old(input[k])
    ensures ok ==> start + position <= input.Length && input[start + position..] == old(input[start + position..])
  {
    var left := value;
    position := 0;
    ok := true;
    if 0 <= value {
      EncodingSize(value);
    }
    var first := true;
    while first || 0 < left
      invariant position <= 4 && (first <==> position == 0)
      invariant first ==> left == value
      invariant value < 0 ==> position <= 1 && left <= 0
      invariant 0 <= value ==> 0 <= left && (!first && left == 0 ==> value <= MAX_LENGTH)
      invariant 0 <= value <= MAX_LENGTH ==>
                  && position <= |Encoding(value)|
                  && input[start..start + position] == Encoding(value)[..position]
                  && (first || 0 < left ==> Encoding(value)[position..] == Encoding(left))
                  && (!first && left == 0 ==> position == |Encoding(value)|)
      invariant MAX_LENGTH < value ==> LargeLeft(position, left)
      invariant forall k :: 0 <= k < input.Length && (k < start || start + position <= k) ==> input[k] == old(input[k])
      decreases first, left
    {
      if position == 4 {
        return false, position;
      }
      ghost var before := left;
      var encodedByte := Remainder(left);
      left := Quotient(left);
      if 0 < left {
        encodedByte := encodedByte + 128;
      }
      if 0 <= value <= MAX_LENGTH {
        EncodingStep(Encoding(value), position, before);
      }
      input[start + position] := Low(encodedByte);
      position := position + 1;
      first := false;
    }
  }

  /** What is left of a value above the maximum after a number of bytes. */
  predicate LargeLeft(position: nat, left: int) {
    match position
    case 0 => left > 268435455
    case 1 => left > 2097151
    case 2 => left > 16383
    case 3 => left > 127
    case _ => left > 0
  }

  lemma EncodingStep(all: seq<byte>, position: nat, left: nat)
    requires position <= |all| && all[position..] == Encoding(left)
    ensures position < |all| && all[position] == left % 128 + (if 128 <= left then 128 else 0)
    ensures if 128 <= left then all[position + 1..] == Encoding(left / 128) else position + 1 == |all|
  {
    assert all[position..][0] == all[position];
    assert all[position..][1..] == all[position + 1..];
  }

  /** The size thresholds of section 2.2.3, which the message builder tests on its own. */
  lemma EncodingSize(v: nat)
    ensures |Encoding(v)| == 1 <==> v <= 127
    ensures |Encoding(v)| == 2 <==> 127 < v <= 16383
    ensures |Encoding(v)| == 3 <==> 16383 < v <= 2097151
    ensures |Encoding(v)| == 4 <==> 2097151 < v <= MAX_LENGTH
  {
    OneByteMore(v);
    OneByteMore(v / 128);
    OneByteMore(v / 128 / 128);
    OneByteMore(v / 128 / 128 / 128);
  }

  lemma OneByteMore(v: nat)
    ensures |Encoding(v)| == if v < 128 then 1 else 1 + |Encoding(v / 128)|
  {
  }

  /** Reads a size field; five bytes or a field that ends must be there to be read. */
  method Decode(input: seq<byte>) returns (value: int, position: nat)
    requires 5 <= |input| || 0 < FieldSize(input, 0)
    ensures if 0 < FieldSize(input, 0)
            then position == FieldSize(input, 0) && value == Value(input[..position])
            else value == -1
  {
    var multiplier: nat := 1;
    value, position := 0, 0;
    var more := true;
    while more
      invariant position <= 4 && position <= |input|
      invariant multiplier == Power128(position) && value == Value(input[..position])
      invariant more ==> FieldSize(input, 0) == FieldSize(input, position)
      invariant !more ==> position == FieldSize(input, 0) && 0 < position
      decreases more, 5 - position
    {
      var encodedByte := input[position];
      ValueStep(input, position);
      value := value + encodedByte % 128 * multiplier;
      multiplier := multiplier * 128;
      if 3 < position {
        return -1, position;
      }
      position := position + 1;
      more := 128 <= encodedByte;
    }
  }

  lemma {:induction false} ValueStep(bs: seq<byte>, k: nat)
    requires k < |bs|
    ensures Value(bs[..k + 1]) == Value(bs[..k]) + bs[k] % 128 * Power128(k)
  {
    if 0 < k {
      ValueStep(bs[1..], k - 1);
      assert bs[..k + 1][1..] == bs[1..][..k] && bs[..k][1..] == bs[1..][..k - 1];
    }
  }

  /** Decoding an encoding gives the value back and uses exactly its bytes, whatever follows. */
  lemma {:induction false} RoundTrip(v: nat, rest: seq<byte>)
    requires v <= MAX_LENGTH
    ensures var field := Encoding(v);
            FieldSize(field + rest, 0) == |field| && Value((field + rest)[..|field|]) == v
  {
    var field := Encoding(v);
    EncodingSize(v);
    FieldOfEncoding(v, [], rest);
    ValueOfEncoding(v);
    assert [] + field + rest == field + rest && (field + rest)[..|field|] == field;
  }

  lemma {:induction false} ValueOfEncoding(v: nat)
    ensures Value(Encoding(v)) == v
  {
    if 128 <= v {
      ValueOfEncoding(v / 128);
      assert Encoding(v)[1..] == Encoding(v / 128);
    }
  }

  lemma {:induction false} FieldOfEncoding(v: nat, before: seq<byte>, rest: seq<byte>)
    requires |before| + |Encoding(v)| <= 4
    ensures FieldSize(before + Encoding(v) + rest, |before|) == |before| + |Encoding(v)|
  {
    var bs := before + Encoding(v) + rest;
    assert bs[|before|] == Encoding(v)[0];
    if 128 <= v {
      var before' := before + [v % 128 + 128];
      assert bs == before' + Encoding(v / 128) + rest;
      FieldOfEncoding(v / 128, before', rest);
    }
  }

  /** No field that stands for a value is shorter than the encoding of that value. */
  lemma {:induction false} EncodingIsShortest(field: seq<byte>)
    requires field != []
    ensures |Encoding(Value(field))| <= |field|
  {
    if 1 < |field| {
      EncodingIsShortest(field[1..]);
      if 128 <= Value(field) {
        assert Value(field) / 128 == Value(field[1..]);
      }
    }
  }
}
