/** SUBSCRIBE and its SUBACK on the server (lib/myqtt-reader.c; sections 3.8 and 3.9 of MQTT 3.1.1). */
module Subscribe {
  import opened Bytes
  import opened Message
  import opened Payload
  import opened Wrappers
  import RemainingLength
  import TopicFilter

  const DENIED: int := 128

  datatype Request = Request(filter: CString, qos: byte)

  /** A filter with the QoS that it is stored or registered with. */
  datatype Grant = Grant(filter: CString, qos: int)

  /**
   * The application's and the storage's answers to the requests, by their place in the packet; `store` is only asked for
   * clients with a session.
   */
  datatype Policy = Policy(utf8: CString -> bool, grant: (nat, Request) -> int, session: bool, store: (nat, Grant) -> bool)

  /** What the `k`th request is granted by the application. */
  function Granted(k: nat, r: Request, p: Policy): Grant {
    Grant(r.filter, p.grant(k, r))
  }

  /** The return code for one request. */
  function Code(k: nat, r: Request, p: Policy): int {
    if p.session && !p.store(k, Granted(k, r, p)) then DENIED else p.grant(k, r)
  }

  /** What is handed to the storage for the first `n` requests, denied ones too. */
  function Stored(rs: seq<Request>, n: nat, p: Policy): seq<Grant>
    requires n <= |rs|
  {
    if n == 0 || !p.session then [] else Stored(rs, n - 1, p) + [Granted(n - 1, rs[n - 1], p)]
  }

  /** What is registered with the connection and in the index. */
  function Registered(rs: seq<Request>, n: nat, p: Policy): seq<Grant>
    requires n <= |rs|
  {
    if n == 0 then []
    else
      var code := Code(n - 1, rs[n - 1], p);
      Registered(rs, n - 1, p) + if code == DENIED then [] else [Grant(rs[n - 1].filter, code)]
  }

  /**
   * The client is told the application's answer, unless the storage was asked, which it is in a session alone, and refused:
   * then 128.
   */
  lemma CodeExactly(k: nat, r: Request, p: Policy)
    ensures !p.session ==> Code(k, r, p) == p.grant(k, r)
    ensures p.session && p.store(k, Grant(r.filter, p.grant(k, r))) ==> Code(k, r, p) == p.grant(k, r)
    ensures p.session && !p.store(k, Grant(r.filter, p.grant(k, r))) ==> Code(k, r, p) == 128
  {
  }

  /** The application granted the request, and the storage, if asked, took it. */
  predicate IsTakenUp(k: nat, r: Request, p: Policy) {
    p.grant(k, r) != 128 && (p.session ==> p.store(k, Grant(r.filter, p.grant(k, r))))
  }

  /**
   * Exactly the requests that were granted and taken are registered, in their order, with the QoS that the application
   * granted.
   */
  lemma {:induction false} RegisteredExactly(rs: seq<Request>, n: nat, p: Policy) returns (ks: seq<nat>)
    requires n <= |rs|
    ensures |ks| == |Registered(rs, n, p)| && forall i, j :: 0 <= i < j < |ks| ==> ks[i] < ks[j]
    ensures forall k: nat :: k in ks <==> k < n && IsTakenUp(k, rs[k], p)
    ensures forall i :: 0 <= i < |ks| ==>
              ks[i] < n && Registered(rs, n, p)[i] == Grant(rs[ks[i]].filter, p.grant(ks[i], rs[ks[i]]))
  {
    ks := [];
    if 0 < n {
      ks := RegisteredExactly(rs, n - 1, p);
      if IsTakenUp(n - 1, rs[n - 1], p) {
        ks := ks + [n - 1];
      }
    }
  }

  /** In a session every request goes to the storage, in its order, as the application granted it; else none does. */
  lemma {:induction false} StoredExactly(rs: seq<Request>, n: nat, p: Policy)
    requires n <= |rs|
    ensures |Stored(rs, n, p)| == if p.session then n else 0
    ensures p.session ==> forall k :: 0 <= k < n ==> Stored(rs, n, p)[k] == Grant(rs[k].filter, p.grant(k, rs[k]))
  {
    if 0 < n {
      StoredExactly(rs, n - 1, p);
    }
  }

  /* ---------- The parse ---------- */

  datatype Ending = Finished | Closes | Overruns

  datatype Taken = One(request: Request, next: nat) | Stop(ending: Ending)

  /** The request at a position inside the payload, or why there is none. */
  function Take(mem: seq<byte>, size: nat, at: nat, utf8: CString -> bool): (t: Taken)
    requires at < size <= |mem|
    ensures t.One? ==> at < t.next <= size
    ensures t.Stop? ==> t.ending != Finished
  {
    match GetUtf8(mem, at, size - at)
    case Closed => Stop(Closes)
    case Overrun => Stop(Overruns)
    case Got(filter) =>
      var desp := at + |filter| + 2;
      if !utf8(filter) || !TopicFilter.IsFilter(filter) || size <= desp then Stop(Closes)
      else One(Request(filter, mem[desp]), desp + 1)
  }

  /** The requests taken from position `at` on, and why the loop ends. */
  function Scan(mem: seq<byte>, size: nat, at: nat, utf8: CString -> bool): (seq<Request>, Ending)
    requires size <= |mem|
    decreases size - at
  {
    if size <= at then ([], Finished)
    else
      match Take(mem, size, at, utf8)
      case Stop(ending) => ([], ending)
      case One(request, next) =>
        var rest := Scan(mem, size, next, utf8);
        ([request] + rest.0, rest.1)
  }

  method TakeRequest(mem: seq<byte>, size: nat, at: nat, utf8: CString -> bool) returns (taken: Taken)
    requires at < size <= |mem|
    ensures taken == Take(mem, size, at, utf8)
  {
    var text := GetUtf8(mem, at, size - at);
    if !text.Got? {
      return Stop(if text.Closed? then Closes else Overruns);
    }
    var filter := text.value;
    if !utf8(filter) {
      return Stop(Closes);
    }
    var wrong := TopicFilter.IsWrongTopic(filter);
    if wrong {
      return Stop(Closes);
    }
    var desp := at + |filter| + 2;
    if size <= desp {
      return Stop(Closes);
    }
    return One(Request(filter, mem[desp]), desp + 1);
  }

  /** What the parse loop has done by its end. */
  datatype Parsed = Parsed(visited: seq<Request>, replies: seq<int>, stored: seq<Grant>, registered: seq<Grant>)

  predicate Handled(done: Parsed, p: Policy) {
    && |done.replies| == |done.visited|
    && (forall k :: 0 <= k < |done.visited| ==> done.replies[k] == Code(k, done.visited[k], p))
    && done.stored == Stored(done.visited, |done.visited|, p)
    && done.registered == Registered(done.visited, |done.visited|, p)
  }

  /** The parse loop: every request that it passes is answered, stored and registered at once. */
  method ParseRequests(mem: seq<byte>, size: nat, p: Policy) returns (done: Parsed, ending: Ending)
    requires size <= |mem|
    ensures done.visited == Scan(mem, size, 2, p.utf8).0 && ending == Scan(mem, size, 2, p.utf8).1
    ensures Handled(done, p)
  {
    hide Take, Handled;
    done := Parsed([], [], [], []);
    NothingHandled(p);
    var desp := 2;
    while desp < size
      invariant Scan(mem, size, 2, p.utf8).0 == done.visited + Scan(mem, size, desp, p.utf8).0
      invariant Scan(mem, size, 2, p.utf8).1 == Scan(mem, size, desp, p.utf8).1
      invariant Handled(done, p)
      decreases size - desp
    {
      var taken := TakeRequest(mem, size, desp, p.utf8);
      if taken.Stop? {
        return done, taken.ending;
      }
      ghost var rest := Scan(mem, size, taken.next, p.utf8);
      assert done.visited + ([taken.request] + rest.0) == done.visited + [taken.request] + rest.0;
      done := HandleRequest(done, taken.request, p);
      desp := taken.next;
    }
    return done, Finished;
  }

  /** The application is asked, then the storage, and what is not denied is registered. */
  method HandleRequest(done: Parsed, r: Request, p: Policy) returns (after: Parsed)
    requires Handled(done, p)
    ensures after.visited == done.visited + [r] && Handled(after, p)
  {
    var k := |done.visited|;
    var qos := p.grant(k, r);
    var stored := done.stored;
    if p.session {
      stored := stored + [Grant(r.filter, qos)];
      if !p.store(k, Grant(r.filter, qos)) {
        qos := DENIED;
      }
    }
    after := Parsed(done.visited + [r], done.replies + [qos], stored, done.registered);
    if qos != DENIED {
      after := after.(registered := done.registered + [Grant(r.filter, qos)]);
    }
    SameGrants(done.visited, after.visited, k, p);
  }

  lemma NothingHandled(p: Policy)
    ensures Handled(Parsed([], [], [], []), p)
  {
  }

  lemma {:induction false} SameGrants(rs: seq<Request>, longer: seq<Request>, n: nat, p: Policy)
    requires n <= |rs| && rs <= longer
    ensures Stored(rs, n, p) == Stored(longer, n, p) && Registered(rs, n, p) == Registered(longer, n, p)
  {
    if 0 < n {
      SameGrants(rs, longer, n - 1, p);
    }
  }

  /* ---------- The reply ---------- */

  function CodeBytes(codes: seq<int>): (bs: seq<byte>)
    ensures |bs| == |codes|
  {
    seq(|codes|, k requires 0 <= k < |codes| => Low(codes[k]))
  }

  /** A well-formed SUBACK. */
  function Suback(packetId: nat, codes: seq<int>): seq<byte> {
    Packet(SUBACK, Flags(false, 0, false), Set16(packetId) + CodeBytes(codes))
  }

  lemma SubackHeaderByte()
    ensures HeaderByte(SUBACK, Flags(false, 0, false)) == 144
  {
  }

  lemma SubackBytes(packetId: nat, codes: seq<int>)
    ensures Suback(packetId, codes) == [144] + RemainingLength.Encoding(|codes| + 2) + Set16(packetId) + CodeBytes(codes)
    ensures |Suback(packetId, codes)| == 3 + |RemainingLength.Encoding(|codes| + 2)| + |codes|
  {
    hide RemainingLength.Encoding, CodeBytes, Set16, HeaderByte;
    SubackHeaderByte();
    Regroup([144] + RemainingLength.Encoding(|codes| + 2), Set16(packetId), CodeBytes(codes));
  }

  /**
   * Fills the reply in place and touches nothing behind it. The code reserves and sends two bytes and a two-byte fixed
   * header, `|codes| + 4`; a longer size field pushes the last codes behind that.
   */
  method BuildSuback(memory: array<byte>, packetId: nat, codes: seq<int>) returns (size: nat)
    requires |codes| + 2 <= RemainingLength.MAX_LENGTH && |Suback(packetId, codes)| <= memory.Length
    modifies memory
    ensures size == |codes| + 4
    ensures memory[..] == Suback(packetId, codes) + old(memory[|Suback(packetId, codes)|..])
  {
    hide Suback, CodeBytes, RemainingLength.Encoding;
    SubackBytes(packetId, codes);
    var at := StoreReplyHeader(memory, packetId, |codes|);
    StoreCodes(memory, at, codes);
    size := |codes| + 4;
  }

  /** The type, the size field and the packet id. */
  method StoreReplyHeader(memory: array<byte>, packetId: nat, count: nat) returns (at: nat)
    requires count + 2 <= RemainingLength.MAX_LENGTH && 3 + |RemainingLength.Encoding(count + 2)| <= memory.Length
    modifies memory
    ensures at == 3 + |RemainingLength.Encoding(count + 2)|
    ensures memory[..at] == [144] + RemainingLength.Encoding(count + 2) + Set16(packetId)
    ensures memory[at..] == old(memory[at..])
  {
    hide RemainingLength.Encoding, Set16;
    memory[0] := SUBACK * 16;
    var encoded, desp := RemainingLength.Encode(memory, 1, count + 2);
    at := desp + 1;
    assert memory[..at] == [memory[0]] + memory[1..1 + desp];
    Store16(memory, at, packetId);
    at := at + 2;
  }

  method StoreCodes(memory: array<byte>, at: nat, codes: seq<int>)
    requires at + |codes| <= memory.Length
    modifies memory
    ensures memory[..] == old(memory[..at]) + CodeBytes(codes) + old(memory[at + |codes|..])
  {
    ghost var (header, behind) := (memory[..at], memory[at + |codes|..]);
    for count := 0 to |codes|
      invariant memory[..at] == header && memory[at + |codes|..] == behind
      invariant forall k :: 0 <= k < count ==> memory[at + k] == Low(codes[k])
    {
      memory[at + count] := Low(codes[count]);
    }
  }

  /**
   * Up to 125 codes exactly, the reply stays inside the memory that is reserved for it and what goes out is a well-formed
   * SUBACK; beyond, it misses its last bytes.
   */
  lemma SentIsSuback(packetId: nat, codes: seq<int>)
    requires |codes| + 2 <= RemainingLength.MAX_LENGTH
    ensures |codes| + 4 <= |Suback(packetId, codes)| <= |codes| + 7
    ensures |Suback(packetId, codes)| <= |codes| + 4 <==> |codes| <= 125
    ensures Suback(packetId, codes)[..|codes| + 4] == Suback(packetId, codes) <==> |codes| <= 125
    ensures 125 < |codes| ==> forall id: nat, other: seq<int> :: |other| + 2 <= RemainingLength.MAX_LENGTH ==>
              Suback(packetId, codes)[..|codes| + 4] != Suback(id, other)
  {
    var full := Suback(packetId, codes);
    RemainingLength.EncodingSize(|codes| + 2);
    if |codes| <= 125 {
      assert full[..|codes| + 4] == full;
    } else {
      var sent := full[..|codes| + 4];
      forall id: nat, other: seq<int> | |other| + 2 <= RemainingLength.MAX_LENGTH
        ensures sent != Suback(id, other)
      {
        if sent == Suback(id, other) {
          SamePrefixSameLength(packetId, codes, id, other);
        }
      }
    }
  }

  /** Two SUBACKs that start alike have the same number of codes: the size field decides it. */
  lemma SamePrefixSameLength(id: nat, codes: seq<int>, id': nat, other: seq<int>)
    requires |codes| + 2 <= RemainingLength.MAX_LENGTH && |other| + 2 <= RemainingLength.MAX_LENGTH
    requires Suback(id', other) <= Suback(id, codes)
    ensures |codes| == |other|
  {
    hide Packet, RemainingLength.Encoding, HeaderByte, ReadHeader;
    var (flags, body, body') := (Flags(false, 0, false), Set16(id) + CodeBytes(codes), Set16(id') + CodeBytes(other));
    var (long, short) := (Suback(id, codes), Suback(id', other));
    HeaderRoundTrip(SUBACK, flags, body, []);
    HeaderRoundTrip(SUBACK, flags, body', long[|short|..]);
    assert long == short + long[|short|..] && long + [] == long;
  }

  datatype Outcome = Acknowledged(done: Parsed, sent: seq<byte>) | Dropped(done: Parsed, ending: Ending)

  /** A whole SUBSCRIBE: parse, then acknowledge. Without a payload the packet id is read through NULL. */
  method Handle(payload: seq<byte>, p: Policy) returns (outcome: Outcome)
    requires |payload| <= RemainingLength.MAX_LENGTH
    ensures Handled(outcome.done, p)
    ensures payload == [] ==> outcome.Dropped? && outcome.done.visited == [] && outcome.ending == Overruns
    ensures payload != [] ==>
              var (visited, ending) := Scan(Memory(payload), |payload|, 2, p.utf8);
              && outcome.done.visited == visited
              && (outcome.Acknowledged? <==> ending == Finished)
              && (outcome.Dropped? ==> outcome.ending == ending)
              && (outcome.Acknowledged? ==>
                    outcome.sent == Suback(Get16(Memory(payload), 0), Codes(visited, p))[..|visited| + 4])
  {
    hide Handled;
    NothingHandled(p);
    if payload == [] {
      return Dropped(Parsed([], [], [], []), Overruns);
    }
    var mem := Memory(payload);
    var packetId := Get16(mem, 0);
    var done, ending := ParseRequests(mem, |payload|, p);
    if ending != Finished {
      return Dropped(done, ending);
    }
    HandledCodes(done, p);
    ScanSize(mem, |payload|, 2, p.utf8);
    SentIsSuback(packetId, done.replies);
    var memory := new byte[|done.replies| + 7];
    var size := BuildSuback(memory, packetId, done.replies);
    assert memory[..size] == Suback(packetId, done.replies)[..size];
    return Acknowledged(done, memory[..size]);
  }

  lemma HandledCodes(done: Parsed, p: Policy)
    requires Handled(done, p)
    ensures done.replies == Codes(done.visited, p)
  {
  }

  function Codes(rs: seq<Request>, p: Policy): (codes: seq<int>)
    ensures |codes| == |rs|
  {
    seq(|rs|, k requires 0 <= k < |rs| => Code(k, rs[k], p))
  }

  /** Every request takes some bytes of the payload. */
  lemma {:induction false} ScanSize(mem: seq<byte>, size: nat, at: nat, utf8: CString -> bool)
    requires size <= |mem|
    ensures at <= size ==> |Scan(mem, size, at, utf8).0| <= size - at
    ensures size < at ==> Scan(mem, size, at, utf8).0 == []
    decreases size - at
  {
    hide Take;
    if at < size {
      var taken := Take(mem, size, at, utf8);
      if taken.One? {
        ScanSize(mem, size, taken.next, utf8);
      }
    }
  }

  /** Nothing is subscribed, whatever the payload, but valid filters that pass the encoding check. */
  lemma {:induction false} VisitedAreValid(mem: seq<byte>, size: nat, at: nat, utf8: CString -> bool)
    requires size <= |mem|
    ensures forall r :: r in Scan(mem, size, at, utf8).0 ==> utf8(r.filter) && TopicFilter.IsFilter(r.filter)
    decreases size - at
  {
    hide GetUtf8, TopicFilter.IsFilter;
    if at < size {
      var taken := Take(mem, size, at, utf8);
      if taken.One? {
        VisitedAreValid(mem, size, taken.next, utf8);
      }
    }
  }

  /* ---------- Well-formed lists ---------- */

  /** The payload that a list of requests stands for, behind its packet id. */
  function Wire(rs: seq<Request>): seq<byte> {
    if rs == [] then [] else RequestBytes(rs[0]) + Wire(rs[1..])
  }

  function RequestBytes(r: Request): (bs: seq<byte>)
    ensures |bs| == |r.filter| + 3
  {
    Set16(|r.filter|) + r.filter + [r.qos]
  }

  predicate WellFormed(r: Request, utf8: CString -> bool) {
    |r.filter| <= 65535 && TopicFilter.IsFilter(r.filter) && utf8(r.filter)
  }

  lemma {:induction false} ScanOfWire(before: seq<byte>, rs: seq<Request>, utf8: CString -> bool)
    requires forall k :: 0 <= k < |rs| ==> WellFormed(rs[k], utf8)
    ensures Scan(before + Wire(rs) + [0], |before + Wire(rs)|, |before|, utf8) == (rs, Finished)
    decreases rs
  {
    hide Take, GetUtf8, TopicFilter.IsFilter;
    if rs != [] {
      var (r, others) := (rs[0], rs[1..]);
      var first := RequestBytes(r);
      WireStep(before, rs);
      hide Wire, RequestBytes;
      FirstRequest(before + Wire(rs) + [0], |before + Wire(rs)|, |before|, r, utf8);
      var (mem, size) := (before + Wire(rs) + [0], |before + Wire(rs)|);
      ScanOfWire(before + first, others, utf8);
      assert Scan(mem, size, |before + first|, utf8) == (others, Finished);
      assert [r] + others == rs;
    }
  }

  lemma WireStep(before: seq<byte>, rs: seq<Request>)
    requires rs != []
    ensures var (mem, first) := (before + Wire(rs) + [0], RequestBytes(rs[0]));
            && mem == before + first + Wire(rs[1..]) + [0]
            && before + Wire(rs) == before + first + Wire(rs[1..])
            && |before| + |first| <= |before + Wire(rs)|
            && mem[|before|..|before| + |first|] == first
  {
    hide RequestBytes;
    FirstOfThree(before, RequestBytes(rs[0]), Wire(rs[1..]));
  }

  lemma FirstOfThree(before: seq<byte>, first: seq<byte>, others: seq<byte>)
    ensures before + (first + others) == before + first + others
    ensures (before + first + others + [0])[|before|..|before| + |first|] == first
  {
  }

  lemma FirstRequest(mem: seq<byte>, size: nat, at: nat, r: Request, utf8: CString -> bool)
    requires WellFormed(r, utf8)
    requires at + |r.filter| + 3 <= size <= |mem|
    requires mem[at..at + |r.filter| + 3] == RequestBytes(r)
    ensures Take(mem, size, at, utf8) == One(r, at + |r.filter| + 3)
  {
    hide GetUtf8, TopicFilter.IsFilter;
    var first := mem[at..at + |r.filter| + 3];
    Get16OfSet16(|r.filter|);
    assert mem[at] == first[0] && mem[at + 1] == first[1] && mem[at + |r.filter| + 2] == first[|r.filter| + 2];
    forall k | 0 <= k < |r.filter| ensures mem[at + 2 + k] == r.filter[k] {
      assert mem[at + (2 + k)] == first[2 + k];
    }
    TextRead(mem, at, r.filter, size - at);
  }

  /**
   * For every list of well-formed requests the server visits exactly that list, and its reply is a SUBACK with the same
   * packet id and one code a request in order, exactly up to 125 requests.
   */
  lemma ListRoundTrip(packetId: nat, rs: seq<Request>, p: Policy)
    requires packetId < 0x1_0000 && 2 + |Wire(rs)| <= RemainingLength.MAX_LENGTH
    requires forall k :: 0 <= k < |rs| ==> WellFormed(rs[k], p.utf8)
    ensures var payload := Set16(packetId) + Wire(rs);
            var mem := Memory(payload);
            && Scan(mem, |payload|, 2, p.utf8) == (rs, Finished) && Get16(mem, 0) == packetId
            && (Suback(packetId, Codes(rs, p))[..|rs| + 4] == Suback(packetId, Codes(rs, p)) <==> |rs| <= 125)
  {
    var payload := Set16(packetId) + Wire(rs);
    ScanOfWire(Set16(packetId), rs, p.utf8);
    Get16OfSet16(packetId);
    ScanSize(Memory(payload), |payload|, 2, p.utf8);
    SentIsSuback(packetId, Codes(rs, p));
  }
}
