/** Reading fields out of the memory that holds a packet's payload (lib/myqtt-reader.c). */
module Payload {
  import opened Bytes
  import opened Message

  /** What a read gives: a value, a reason to close the connection, or bytes outside the payload's memory. */
  datatype Read<+T> = Got(value: T) | Closed | Overrun {
    predicate IsFailure() {
      !Got?
    }

    function PropagateFailure<U>(): Read<U>
      requires IsFailure()
    {
      if Closed? then Closed else Overrun
    }

    function Extract(): T
      requires Got?
    {
      value
    }
  }

  /** The reader allocates one byte more than the payload and ends it with a NUL; no payload, no memory. */
  function Memory(payload: seq<byte>): seq<byte> {
    if payload == [] then [] else payload + [0]
  }

  function GetByte(mem: seq<byte>, at: nat): Read<byte> {
    if at < |mem| then Got(mem[at]) else Overrun
  }

  function GetShort(mem: seq<byte>, at: nat): Read<nat> {
    if at + 2 <= |mem| then Got(Get16(mem, at)) else Overrun
  }

  /**
   * The length-prefixed string at `at`; its length must not pass `limit`, which the caller computes as what remains
   * from `at` on.
   */
  function GetUtf8(mem: seq<byte>, at: nat, limit: int): Read<CString> {
    if mem == [] && at == 0 then Closed
    else
      var length :- GetShort(mem, at);
      if length > limit then Closed
      else if |mem| < at + 2 + length then Overrun
      else Got(CStringAt(mem, at + 2, at + 2 + length))
  }

  /* ---------- What was stored is what is read ---------- */

  predicate ShortAt(mem: seq<byte>, at: nat, v: nat) {
    at + 2 <= |mem| && Get16(mem, at) == v
  }

  predicate TextAt(mem: seq<byte>, at: nat, text: CString) {
    ShortAt(mem, at, |text|) && at + 2 + |text| <= |mem| && forall k :: 0 <= k < |text| ==> mem[at + 2 + k] == text[k]
  }

  lemma TextRead(mem: seq<byte>, at: nat, text: CString, limit: int)
    requires TextAt(mem, at, text) && |text| <= limit
    ensures GetUtf8(mem, at, limit) == Got(text)
  {
    var end := at + 2 + |text|;
    forall k | at + 2 <= k < end ensures mem[k] != 0 {
      assert mem[at + 2 + (k - at - 2)] == text[k - at - 2];
    }
    assert NulIndex(mem, at + 2, end) == end;
    assert mem[at + 2..end] == text;
  }

  lemma TextParam(ps: seq<Param>, k: nat, text: CString)
    requires k < |ps| && ps[k] == Utf8(text) && |text| <= 65535
    ensures Offset(ps, k + 1) == Offset(ps, k) + 2 + |text| <= |Body(ps)| == Offset(ps, |ps|)
    ensures TextAt(Memory(Body(ps)), Offset(ps, k), text)
  {
    hide Body, BodyTo, Offset;
    var (body, at) := (Body(ps), Offset(ps, k));
    ParamAt(ps, k);
    Get16OfSet16(|text|);
    assert body[at + 0] == Encoded(ps[k])[0] && body[at + 1] == Encoded(ps[k])[1];
    forall i | 0 <= i < |text| ensures body[at + 2 + i] == text[i] {
      assert body[at + (2 + i)] == Encoded(ps[k])[2 + i];
    }
  }

  lemma ShortParam(ps: seq<Param>, k: nat, v: nat)
    requires k < |ps| && ps[k] == Int16(v) && v <= 65535
    ensures Offset(ps, k + 1) == Offset(ps, k) + 2 <= |Body(ps)| == Offset(ps, |ps|)
    ensures ShortAt(Memory(Body(ps)), Offset(ps, k), v)
  {
    hide Body, BodyTo, Offset;
    ParamAt(ps, k);
    Get16OfSet16(v);
    assert Body(ps)[Offset(ps, k) + 0] == Encoded(ps[k])[0];
  }

  lemma ByteParam(ps: seq<Param>, k: nat, v: byte)
    requires k < |ps| && ps[k] == Int8(v)
    ensures Offset(ps, k + 1) == Offset(ps, k) + 1 <= |Body(ps)| == Offset(ps, |ps|)
    ensures Memory(Body(ps))[Offset(ps, k)] == v
  {
    hide Body, BodyTo, Offset;
    ParamAt(ps, k);
    assert Body(ps)[Offset(ps, k) + 0] == Encoded(ps[k])[0];
  }

  lemma DataParam(ps: seq<Param>, k: nat, data: seq<byte>)
    requires k + 1 == |ps| && ps[k] == Binary(data)
    ensures Offset(ps, k) + |data| == |Body(ps)| && Body(ps)[Offset(ps, k)..] == data
  {
    ParamAt(ps, k);
  }
}
