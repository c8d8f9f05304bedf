/** The QoS argument of a publish call, which is tested bit by bit (lib/myqtt-types.h, lib/myqtt-conn.c). */
module Qos {

  /** Documented as a flag to be combined with QoS 1, but it has the bits of QoS 1 and 2 itself. */
  const SKIP_STORAGE: nat := 127

  predicate AsksAck(qos: nat) {
    qos % 2 == 1
  }

  predicate AsksRec(qos: nat) {
    qos / 2 % 2 == 1
  }

  /** The QoS of the packet: bit 0 asks for 1, else bit 1 asks for 2. */
  function WireQos(qos: nat): (q: nat)
    ensures q <= 2
  {
    if AsksAck(qos) then 1 else if AsksRec(qos) then 2 else 0
  }

  /** The two lowest bits of the argument, whatever the others are. */
  lemma BitsExactly(others: nat, rec: bool, ack: bool)
    ensures var qos := 4 * others + (if rec then 2 else 0) + (if ack then 1 else 0);
            && (AsksAck(qos) <==> ack) && (AsksRec(qos) <==> rec)
            && WireQos(qos) == if ack then 1 else if rec then 2 else 0
  {
  }
}
