/** The resumable packet reader (lib/myqtt-msg.c): it keeps a partly read packet on the connection. */
module FrameReader {
  import opened Bytes
  import opened Message
  import opened Wrappers
  import RemainingLength

  const NO_DATA_LIMIT: nat := 25

  type Chunk = c: seq<byte> | c != [] witness [0]

  /** What reading the socket will meet, in order; `staleErrno` is an errno left from an earlier "no data". */
  datatype Event = Data(chunk: Chunk) | NoData | Closed(staleErrno: bool)

  datatype Received = Bytes(data: Chunk) | Again | Gone(staleErrno: bool)

  /** One `recv` of at most `max` bytes: a part of the next chunk, whatever the other end made of it. */
  function Receive(script: seq<Event>, max: nat): (r: (Received, seq<Event>))
    requires 0 < max
    ensures r.0.Bytes? ==> |r.0.data| <= max
  {
    if script == [] then (Again, [])
    else
      match script[0]
      case NoData => (Again, script[1..])
      case Closed(stale) => (Gone(stale), script)
      case Data(chunk) =>
        if |chunk| <= max then (Bytes(chunk), script[1..])
        else (Bytes(chunk[..max]), [Data(chunk[max..])] + script[1..])
  }

  /* ---------- The reader as a function of the connection's state ---------- */

  /** A packet under way. The code counts a "no data" on its first body read as -2 bytes. */
  datatype Pending = Pending(header: Header, filled: seq<byte>, bytesRead: int, remaining: int)

  /** `accepts` is the application's verdict on headers. */
  datatype State = State(open: bool, pending: Option<Pending>, noDataOpers: nat, accepts: Header -> bool)

  /** `Undefined` stands for an access outside the buffer. */
  datatype Outcome = Nothing | Arrived(header: Header, payload: seq<byte>) | Undefined

  datatype Result = Result(state: State, script: seq<Event>, outcome: Outcome)

  function CountNoData(s: State): State {
    s.(noDataOpers := s.noDataOpers + 1, open := s.noDataOpers < NO_DATA_LIMIT)
  }

  /** Keeps what has been read of a packet, or hands it out when it is whole. */
  function Keep(s: State, header: Header, filled: seq<byte>, script: seq<Event>): Result {
    if |filled| == header.remaining then Result(s.(pending := None), script, Arrived(header, filled))
    else
      Result(s.(pending := Some(Pending(header, filled, |filled|, header.remaining - |filled|))), script, Nothing)
  }

  function Resume(s: State, script: seq<Event>): Result
    requires s.pending.Some? && 0 < s.pending.value.remaining
  {
    var p := s.pending.value;
    var (received, rest) := Receive(script, p.remaining);
    if received.Again? then Result(CountNoData(s), rest, Nothing)
    else if p.bytesRead < 0 then Result(s, rest, Undefined)
    else
      match received
      case Gone(_) => Result(s.(open := false, pending := None), rest, Nothing)
      case Bytes(data) => Keep(s, p.header, p.filled + data, rest)
  }

  function FirstRead(s: State, header: Header, script: seq<Event>): Result {
    if header.remaining == 0 then Result(s, script, Arrived(header, []))
    else
      var (received, rest) := Receive(script, header.remaining);
      match received
      case Gone(stale) => if stale then Keep(s, header, [], rest) else Result(s.(open := false), rest, Nothing)
      case Again => Result(s.(pending := Some(Pending(header, [], -2, header.remaining + 2))), rest, Nothing)
      case Bytes(data) => Keep(s, header, data, rest)
  }

  datatype HeaderRead = Whole(bytes: seq<byte>) | Cut

  /**
   * The further bytes of the size field, one by one while the last one says that more follow. For a byte that is not there
   * yet the code goes on with the NUL that ended the previous read.
   */
  function MoreHeader(bytes: seq<byte>, k: nat, script: seq<Event>): (r: (HeaderRead, seq<Event>))
    requires |bytes| == 2 + k && k <= 3
    ensures r.0.Whole? ==> bytes <= r.0.bytes && 2 <= |r.0.bytes| <= 5
    decreases 3 - k
  {
    if k == 3 || bytes[1 + k] < 128 then (Whole(bytes), script)
    else
      var (received, rest) := Receive(script, 1);
      match received
      case Gone(_) => (Cut, rest)
      case Again => (Whole(bytes + [0]), rest)
      case Bytes(data) => MoreHeader(bytes + data, k + 1, rest)
  }

  /** Headers that close the connection: a reply without exactly a packet id, or QoS 3. */
  predicate BadHeader(h: Header) {
    (4 <= h.kind <= 7 && h.remaining != 2) || 2 < h.flags.qos
  }

  function AfterHeader(s: State, header: Option<Header>, script: seq<Event>): Result {
    if header.None? || BadHeader(header.value) || !s.accepts(header.value) then Result(s.(open := false), script, Nothing)
    else FirstRead(s, header.value, script)
  }

  /** A header byte that comes alone is taken with a second byte 0. */
  function FirstTwo(data: Chunk): seq<byte> {
    if |data| == 1 then data + [0] else data
  }

  function Start(s: State, script: seq<Event>): Result {
    var (received, rest) := Receive(script, 2);
    match received
    case Again => Result(CountNoData(s), rest, Nothing)
    case Gone(_) => Result(s.(open := false, noDataOpers := 0), rest, Nothing)
    case Bytes(data) =>
      var s0 := s.(noDataOpers := 0);
      var (header, behind) := MoreHeader(FirstTwo(data), 0, rest);
      match header
      case Cut => Result(s0.(open := false), behind, Nothing)
      case Whole(bytes) => AfterHeader(s0, ReadHeader(bytes), behind)
  }

  /** One call of the reader. */
  function Step(s: State, script: seq<Event>): Result
    requires Consistent(s)
  {
    if s.pending.Some? then Resume(s, script) else Start(s, script)
  }

  /** What holds between calls: the bytes read and the bytes missing make up the packet. */
  predicate Consistent(s: State) {
    s.pending.Some? ==>
      var p := s.pending.value;
      && p.bytesRead + p.remaining == p.header.remaining && 0 < p.remaining
      && if p.bytesRead < 0 then p.filled == [] else |p.filled| == p.bytesRead
  }

  /** Every call keeps the bookkeeping, and a packet comes out with as many bytes as its header announced. */
  lemma StepKeepsConsistent(s: State, script: seq<Event>)
    requires Consistent(s)
    ensures Consistent(Step(s, script).state)
    ensures var r := Step(s, script); r.outcome.Arrived? ==> |r.outcome.payload| == r.outcome.header.remaining
  {
    hide MoreHeader, ReadHeader, AfterHeader;
    if s.pending.None? {
      var (received, rest) := Receive(script, 2);
      if received.Bytes? {
        var (header, behind) := MoreHeader(FirstTwo(received.data), 0, rest);
        if header.Whole? {
          AfterHeaderKeepsConsistent(s.(noDataOpers := 0), ReadHeader(header.bytes), behind);
        }
      }
    }
  }

  lemma AfterHeaderKeepsConsistent(s: State, header: Option<Header>, script: seq<Event>)
    requires Consistent(s) && s.pending.None?
    ensures Consistent(AfterHeader(s, header, script).state)
    ensures var r := AfterHeader(s, header, script); r.outcome.Arrived? ==> |r.outcome.payload| == r.outcome.header.remaining
  {
  }

  /* ---------- Whole runs ---------- */

  /** The bytes the other end sends before it closes. */
  function Stream(script: seq<Event>): seq<byte> {
    if script == [] then []
    else
      match script[0]
      case NoData => Stream(script[1..])
      case Closed(_) => []
      case Data(chunk) => chunk + Stream(script[1..])
  }

  /** The next `n` bytes, how many "no data" polls come before the last of them, and what is left to read. */
  datatype Delivery = Delivery(bytes: seq<byte>, polls: nat, rest: seq<Event>)

  function Deliver(script: seq<Event>, n: nat): Option<Delivery> {
    if n == 0 then Some(Delivery([], 0, script))
    else if script == [] then None
    else
      match script[0]
      case NoData => After([], 1, Deliver(script[1..], n))
      case Closed(_) => None
      case Data(chunk) =>
        if n < |chunk| then Some(Delivery(chunk[..n], 0, [Data(chunk[n..])] + script[1..]))
        else After(chunk, 0, Deliver(script[1..], n - |chunk|))
  }

  function After(bytes: seq<byte>, polls: nat, d: Option<Delivery>): Option<Delivery> {
    if d.None? then None else Some(Delivery(bytes + d.value.bytes, polls + d.value.polls, d.value.rest))
  }

  /** Calls the reader until a packet comes out, the connection closes or nothing is left to read. */
  function Run(s: State, script: seq<Event>): Result
    requires Consistent(s)
    decreases |script|
  {
    StepKeepsConsistent(s, script);
    var r := Step(s, script);
    if r.outcome.Nothing? && r.state.open && |r.script| < |script| then Run(r.state, r.script) else r
  }

  /** A packet under way, with bytes to come: the verdict on the whole run. */
  ghost predicate RunDelivers(s: State, header: Header, filled: seq<byte>, d: Delivery, r: Result) {
    if s.noDataOpers + d.polls <= NO_DATA_LIMIT
    then r == Result(State(true, None, s.noDataOpers + d.polls, s.accepts), d.rest, Arrived(header, filled + d.bytes))
    else r.outcome == Nothing && !r.state.open
  }

  /**
   * However the missing bytes of a packet are cut into chunks and polls, the calls together return exactly one packet with
   * all its bytes in order and leave the rest unread, unless more than 25 polls met no data: then they close the connection.
   */
  lemma {:induction false} ReassemblyFrom(s: State, script: seq<Event>)
    requires Consistent(s) && s.open && s.noDataOpers <= NO_DATA_LIMIT
    requires s.pending.Some? && 0 <= s.pending.value.bytesRead
    requires Deliver(script, s.pending.value.remaining).Some?
    ensures var p := s.pending.value;
            RunDelivers(s, p.header, p.filled, Deliver(script, p.remaining).value, Run(s, script))
    decreases |script|
  {
    var p := s.pending.value;
    var r := Step(s, script);
    match script[0] {
      case NoData =>
        if s.noDataOpers < NO_DATA_LIMIT {
          ReassemblyFrom(r.state, script[1..]);
          assert forall bytes: seq<byte> :: [] + bytes == bytes;
        }
      case Data(chunk) =>
        if p.remaining < |chunk| {
        } else if p.remaining == |chunk| {
          assert chunk + [] == chunk;
        } else {
          ReassemblyFrom(r.state, script[1..]);
          var d := Deliver(script[1..], p.remaining - |chunk|).value;
          assert p.filled + chunk + d.bytes == p.filled + (chunk + d.bytes);
        }
    }
  }

  lemma {:induction false} DeliverySplitsStream(script: seq<Event>, n: nat)
    ensures Deliver(script, n).Some? <==> n <= |Stream(script)|
    ensures Deliver(script, n).Some? ==>
              var d := Deliver(script, n).value; |d.bytes| == n && Stream(script) == d.bytes + Stream(d.rest)
  {
    if 0 < n && script != [] {
      match script[0] {
        case NoData => DeliverySplitsStream(script[1..], n);
        case Closed(_) =>
        case Data(chunk) =>
          if |chunk| <= n {
            DeliverySplitsStream(script[1..], n - |chunk|);
            if Deliver(script, n).Some? {
              var d := Deliver(script[1..], n - |chunk|).value;
              Regroup(chunk, d.bytes, Stream(d.rest));
            }
          } else {
            assert ([Data(chunk[n..])] + script[1..])[1..] == script[1..];
          }
      }
    }
  }

  /* ---------- From the first byte of a packet ---------- */

  lemma ReceivedFromStream(script: seq<Event>, max: nat)
    requires 0 < max && Receive(script, max).0.Bytes?
    ensures Stream(script) == Receive(script, max).0.data + Stream(Receive(script, max).1)
  {
    if script[0].Data? && max < |script[0].chunk| {
      var chunk := script[0].chunk;
      assert ([Data(chunk[max..])] + script[1..])[1..] == script[1..];
    }
  }

  lemma ReceiveSizes(script: seq<Event>, max: nat)
    requires 0 < max
    ensures var (received, rest) := Receive(script, max);
            |rest| <= |script| && (received.Bytes? ==> 1 <= |received.data| <= max)
  {
  }

  lemma NothingReceived(script: seq<Event>, max: nat)
    requires 0 < max && Receive(script, max).0.Again?
    ensures Stream(script) == Stream(Receive(script, max).1)
  {
  }

  /** The further bytes of the size field, if every one is there when it is asked for. */
  function SizeBytes(bytes: seq<byte>, k: nat, script: seq<Event>): Option<(seq<byte>, seq<Event>)>
    requires |bytes| == 2 + k && k <= 3
    decreases 3 - k
  {
    if k == 3 || bytes[1 + k] < 128 then Some((bytes, script))
    else
      var (received, rest) := Receive(script, 1);
      if received.Bytes? then SizeBytes(bytes + received.data, k + 1, rest) else None
  }

  /** The fixed header comes whole: both first bytes at once, and every further size byte when it is asked for. */
  function WholeHeader(script: seq<Event>): Option<(seq<byte>, seq<Event>)> {
    var (received, rest) := Receive(script, 2);
    if received.Bytes? && |received.data| == 2 then SizeBytes(received.data, 0, rest) else None
  }

  /** Bytes as a header: only the last of them ends the size field, or none of four does. */
  predicate HeaderShape(bytes: seq<byte>) {
    && 2 <= |bytes| <= 5 && (forall i :: 1 <= i < |bytes| - 1 ==> 128 <= bytes[i])
    && (bytes[|bytes| - 1] < 128 || |bytes| == 5)
  }

  /** What the reader takes for the size field: the bytes that are there, or those before a missing one and a zero. */
  lemma {:induction false} MoreHeaderFromStream(bytes: seq<byte>, k: nat, script: seq<Event>)
    requires |bytes| == 2 + k && k <= 3 && (forall i :: 1 <= i <= k ==> 128 <= bytes[i])
    ensures var (read, rest) := MoreHeader(bytes, k, script);
            var whole := SizeBytes(bytes, k, script);
            && |rest| <= |script|
            && (whole.Some? ==> read == Whole(whole.value.0) && rest == whole.value.1)
            && (read.Whole? ==> HeaderShape(read.bytes))
            && (read.Whole? ==>
                  if whole.Some? then bytes + Stream(script) == read.bytes + Stream(rest)
                  else |bytes + Stream(script)| + 1 == |read.bytes| + |Stream(rest)|)
    decreases 3 - k
  {
    hide Receive, Stream;
    if k < 3 && 128 <= bytes[1 + k] {
      var (received, rest) := Receive(script, 1);
      ReceiveSizes(script, 1);
      if received.Bytes? {
        ReceivedFromStream(script, 1);
        MoreHeaderFromStream(bytes + received.data, k + 1, rest);
        assert bytes + (received.data + Stream(rest)) == bytes + received.data + Stream(rest);
      } else if received.Again? {
        NothingReceived(script, 1);
      }
    }
  }

  /** Reading stops right behind the header, and the header is the one the stream starts with. */
  lemma HeaderIsFront(script: seq<Event>)
    requires WholeHeader(script).Some?
    ensures var (bytes, behind) := WholeHeader(script).value;
            && 2 <= |bytes| && Stream(script) == bytes + Stream(behind)
            && ReadHeader(bytes) == ReadHeader(Stream(script))
            && (ReadHeader(bytes).Some? ==> ReadHeader(bytes).value.size == |bytes|)
  {
    hide ReadHeader;
    var (received, rest) := Receive(script, 2);
    var (bytes, behind) := WholeHeader(script).value;
    ReceivedFromStream(script, 2);
    MoreHeaderFromStream(received.data, 0, rest);
    HeaderDecided(bytes, Stream(behind));
  }

  lemma HeaderDecided(bytes: seq<byte>, more: seq<byte>)
    requires HeaderShape(bytes)
    ensures ReadHeader(bytes) == ReadHeader(bytes + more)
    ensures ReadHeader(bytes).Some? ==> ReadHeader(bytes).value.size == |bytes|
  {
    var (field, longer) := (bytes[1..], (bytes + more)[1..]);
    FieldDecided(field, longer, 0);
    var k := RemainingLength.FieldSize(field, 0);
    if 0 < k {
      assert field[..k] == longer[..k];
    }
  }

  lemma {:induction false} FieldDecided(field: seq<byte>, longer: seq<byte>, i: nat)
    requires 1 <= |field| <= 4 && field <= longer && i < |field|
    requires forall m :: 0 <= m < |field| - 1 ==> 128 <= field[m]
    requires field[|field| - 1] < 128 || |field| == 4
    ensures RemainingLength.FieldSize(longer, i) == RemainingLength.FieldSize(field, i)
    ensures RemainingLength.FieldSize(field, i) == if field[|field| - 1] < 128 then |field| else 0
    decreases |field| - i
  {
    if i + 1 < |field| {
      FieldDecided(field, longer, i + 1);
    }
  }

  /** A packet on the wire. */
  datatype Sent = Sent(kind: nat, flags: Flags, body: seq<byte>)

  /** What a sender may send; a reply has a packet id for its body. */
  predicate Sendable(p: Sent) {
    && p.kind < 16 && p.flags.qos <= 2 && |p.body| <= RemainingLength.MAX_LENGTH
    && (4 <= p.kind <= 7 ==> |p.body| == 2)
  }

  function HeaderOf(p: Sent): Header {
    Header(p.kind, p.flags, |p.body|, 1 + |RemainingLength.Encoding(|p.body|)|)
  }

  lemma HeaderAnnounces(p: Sent)
    ensures HeaderOf(p).remaining == |p.body|
  {
  }

  function WireOf(p: Sent): (wire: seq<byte>)
    requires Sendable(p)
    ensures |wire| == HeaderOf(p).size + |p.body|
  {
    Packet(p.kind, p.flags, p.body)
  }

  lemma StartWithHeader(s: State, script: seq<Event>)
    requires s.open && WholeHeader(script).Some?
    ensures var (bytes, behind) := WholeHeader(script).value;
            Start(s, script) == AfterHeader(s.(noDataOpers := 0), ReadHeader(bytes), behind) && |behind| <= |script|
  {
    hide MoreHeader, ReadHeader, AfterHeader;
    MoreHeaderFromStream(Receive(script, 2).0.data, 0, Receive(script, 2).1);
  }

  /** Reading the whole header of a packet gives that header and leaves the body. */
  lemma StartOfPacket(s: State, script: seq<Event>, p: Sent, more: seq<byte>)
    requires s.open && Sendable(p) && Stream(script) == WireOf(p) + more && WholeHeader(script).Some?
    ensures var behind := WholeHeader(script).value.1;
            && Start(s, script) == AfterHeader(s.(noDataOpers := 0), Some(HeaderOf(p)), behind)
            && |behind| <= |script| && Stream(behind) == p.body + more && !BadHeader(HeaderOf(p))
  {
    hide Packet, RemainingLength.Encoding, ReadHeader, WholeHeader, Start, AfterHeader;
    HeaderRoundTrip(p.kind, p.flags, p.body, more);
    HeaderIsFront(script);
    StartWithHeader(s, script);
    var (bytes, behind) := WholeHeader(script).value;
    assert Stream(script)[|bytes|..] == Stream(behind);
  }

  /**
   * A packet is at the front of the stream, its header comes whole and the first read of its body finds data: calling the
   * reader on returns it with its body and leaves what is behind it unread; more than 25 polls close the connection.
   */
  lemma PacketArrives(s: State, script: seq<Event>, p: Sent, more: seq<byte>)
    requires s.open && s.pending.None? && Sendable(p) && s.accepts(HeaderOf(p))
    requires Stream(script) == WireOf(p) + more && WholeHeader(script).Some?
    requires p.body != [] ==> var behind := WholeHeader(script).value.1; behind != [] && behind[0].Data?
    ensures var r := Run(s, script);
            var d := Deliver(WholeHeader(script).value.1, |p.body|);
            && d.Some?
            && if d.value.polls <= NO_DATA_LIMIT
               then && r.outcome == Arrived(HeaderOf(p), p.body) && Stream(r.script) == more && r.script == d.value.rest
                    && r.state == State(true, None, d.value.polls, s.accepts)
               else r.outcome == Nothing && !r.state.open
  {
    hide WireOf, HeaderOf, Start, WholeHeader, Deliver, FirstRead, BadHeader;
    StartOfPacket(s, script, p, more);
    var behind := WholeHeader(script).value.1;
    DeliverySplitsStream(behind, |p.body|);
    var d := Deliver(behind, |p.body|).value;
    assert d.bytes == (p.body + more)[..|p.body|] == p.body;
    assert Stream(d.rest) == (p.body + more)[|p.body|..] == more;
    assert [] + d.bytes == d.bytes;
    HeaderAnnounces(p);
    BodyArrives(s.(noDataOpers := 0), HeaderOf(p), behind, d);
  }

  /** The first read of a body that finds data, and the calls behind it. */
  lemma BodyArrives(s: State, header: Header, script: seq<Event>, d: Delivery)
    requires s.open && s.pending.None? && s.noDataOpers == 0 && Deliver(script, header.remaining) == Some(d)
    requires 0 < header.remaining ==> script != [] && script[0].Data?
    ensures var r := FirstRead(s, header, script);
            && Consistent(r.state) && !r.outcome.Undefined?
            && (r.outcome.Nothing? ==> r.state.open && |r.script| < |script|)
            && RunDelivers(s, header, [], d, if r.outcome.Nothing? then Run(r.state, r.script) else r)
  {
    hide Run, Step;
    if 0 < header.remaining {
      var chunk := script[0].chunk;
      if |chunk| < header.remaining {
        ReassemblyFrom(FirstRead(s, header, script).state, script[1..]);
        var later := Deliver(script[1..], header.remaining - |chunk|).value;
        assert [] + (chunk + later.bytes) == chunk + later.bytes;
      } else if |chunk| == header.remaining {
        assert [] + (chunk + []) == chunk;
      } else {
        assert [] + chunk[..header.remaining] == chunk[..header.remaining];
      }
    }
  }

  /**
   * A size field of more than four bytes, QoS 3, a reply with anything but a packet id, or the application's veto closes
   * the connection at once.
   */
  lemma RefusedHeader(s: State, script: seq<Event>)
    requires s.open && s.pending.None? && WholeHeader(script).Some?
    requires var stream := Stream(script);
             || RemainingLength.FieldSize(stream[1..], 0) == 0
             || stream[0] / 2 % 4 == 3
             || (stream[0] / 16 in {4, 5, 6, 7} && ReadHeader(stream).Some? && ReadHeader(stream).value.remaining != 2)
             || (ReadHeader(stream).Some? && !s.accepts(ReadHeader(stream).value))
    ensures var r := Step(s, script); r.outcome == Nothing && !r.state.open && r.state.pending.None?
  {
    hide MoreHeader, WholeHeader;
    HeaderIsFront(script);
    StartWithHeader(s, script);
  }

  /* ---------- Exactly when a packet arrives ---------- */

  /** What the rest of a run makes of one call's result; `n` is the length of the script before that call. */
  function Onward(r: Result, n: nat): Result
    requires Consistent(r.state)
  {
    if r.outcome.Nothing? && r.state.open && |r.script| < n then Run(r.state, r.script) else r
  }

  /** A packet under way that arrives has taken exactly its missing bytes from the stream. */
  lemma {:induction false} RunConsumes(s: State, script: seq<Event>)
    requires Consistent(s) && s.open && s.pending.Some?
    ensures var (p, r) := (s.pending.value, Run(s, script));
            r.outcome.Arrived? ==>
              0 <= p.bytesRead && r.outcome.header == p.header && |Stream(script)| == p.remaining + |Stream(r.script)|
    decreases |script|
  {
    var p := s.pending.value;
    var r := Step(s, script);
    if script != [] && !script[0].Closed? {
      if script[0].Data? {
        ReceivedFromStream(script, p.remaining);
      }
      if r.outcome.Nothing? && r.state.open && |r.script| < |script| {
        RunConsumes(r.state, r.script);
      }
    }
  }

  lemma BodyConsumes(s: State, header: Header, script: seq<Event>, n: nat)
    requires s.open && s.pending.None?
    ensures var r := FirstRead(s, header, script);
            && Consistent(r.state)
            && var end := Onward(r, n);
               end.outcome.Arrived? ==>
                 end.outcome.header == header && |Stream(script)| == header.remaining + |Stream(end.script)|
  {
    hide Run;
    var r := FirstRead(s, header, script);
    if 0 < header.remaining {
      if script != [] && script[0].Data? {
        ReceivedFromStream(script, header.remaining);
      }
      if r.outcome.Nothing? && r.state.open && |r.script| < n {
        RunConsumes(r.state, r.script);
      }
    }
  }

  /** Without one of its bytes a header is read with a zero in that byte's place, or the connection closes. */
  lemma ShortHeader(s: State, script: seq<Event>) returns (cut: bool, read: seq<byte>, rest: seq<Event>)
    requires s.open && s.pending.None? && script != [] && script[0].Data? && WholeHeader(script).None?
    ensures if cut then Start(s, script).outcome == Nothing && !Start(s, script).state.open
            else && HeaderShape(read) && |Stream(script)| + 1 == |read| + |Stream(rest)| && |rest| <= |script|
                 && Start(s, script) == AfterHeader(s.(noDataOpers := 0), ReadHeader(read), rest)
  {
    hide ReadHeader, AfterHeader;
    var (received, behind) := Receive(script, 2);
    ReceivedFromStream(script, 2);
    var bytes := FirstTwo(received.data);
    MoreHeaderFromStream(bytes, 0, behind);
    var (header, after) := MoreHeader(bytes, 0, behind);
    cut, rest := header.Cut?, after;
    read := if cut then [] else header.bytes;
  }

  /** A packet whose header does not come whole is not received as the packet it is. */
  lemma ShortHeaderMisses(s: State, script: seq<Event>, p: Sent, more: seq<byte>)
    requires s.open && s.pending.None? && Sendable(p) && script != [] && script[0].Data?
    requires Stream(script) == WireOf(p) + more && WholeHeader(script).None?
    ensures var r := Run(s, script); !(r.outcome.Arrived? && r.outcome.header == HeaderOf(p) && Stream(r.script) == more)
  {
    hide WholeHeader, ReadHeader, RemainingLength.Encoding;
    var cut, read, rest := ShortHeader(s, script);
    if !cut {
      var s0 := s.(noDataOpers := 0);
      var header := ReadHeader(read);
      HeaderDecided(read, []);
      if header.Some? && !BadHeader(header.value) && s.accepts(header.value) {
        BodyConsumes(s0, header.value, rest, |script|);
      }
    }
  }

  /** The polls that find nothing before the next event. */
  function Polls(script: seq<Event>): (z: nat)
    ensures z <= |script|
  {
    if script != [] && script[0].NoData? then 1 + Polls(script[1..]) else 0
  }

  lemma {:induction false} PollsSkipped(s: State, script: seq<Event>)
    requires s.open && s.pending.None? && s.noDataOpers <= NO_DATA_LIMIT
    ensures var (z, r) := (Polls(script), Run(s, script));
            && Stream(script[z..]) == Stream(script) && (script[z..] != [] ==> !script[z].NoData?)
            && if s.noDataOpers + z <= NO_DATA_LIMIT
               then r == Run(s.(noDataOpers := s.noDataOpers + z), script[z..])
               else r.outcome == Nothing && !r.state.open && r.state.pending.None? && NO_DATA_LIMIT < r.state.noDataOpers
    decreases |script|
  {
    hide Resume, MoreHeader, ReadHeader, AfterHeader;
    if script != [] && script[0].NoData? {
      assert Step(s, script) == Result(CountNoData(s), script[1..], Nothing);
      if s.noDataOpers < NO_DATA_LIMIT {
        PollsSkipped(CountNoData(s), script[1..]);
      } else {
        StreamPastPolls(script[1..]);
      }
      assert script[1..][Polls(script[1..])..] == script[Polls(script)..];
    } else {
      assert script[0..] == script;
    }
  }

  lemma {:induction false} StreamPastPolls(script: seq<Event>)
    ensures var z := Polls(script);
            Stream(script[z..]) == Stream(script) && (script[z..] != [] ==> !script[z].NoData?)
  {
    if script != [] && script[0].NoData? {
      StreamPastPolls(script[1..]);
      assert script[1..][Polls(script[1..])..] == script[Polls(script)..];
    } else {
      assert script[0..] == script;
    }
  }

  /**
   * No data on the first read of a body: the next call that finds any writes in front of the buffer. That is kept from
   * happening only by more than 25 further polls that find nothing: they close the connection.
   */
  lemma NoDataOnFirstBodyRead(s: State, script: seq<Event>, p: Sent, more: seq<byte>)
    requires s.open && s.pending.None? && Sendable(p) && s.accepts(HeaderOf(p)) && p.body != []
    requires Stream(script) == WireOf(p) + more && WholeHeader(script).Some?
    requires var behind := WholeHeader(script).value.1; behind != [] && behind[0].NoData?
    ensures var r := Run(s, script);
            if Polls(WholeHeader(script).value.1[1..]) <= NO_DATA_LIMIT then r.outcome == Undefined
            else r.outcome == Nothing && !r.state.open
  {
    hide WireOf, HeaderOf, Start, AfterHeader, WholeHeader, BadHeader, Polls, Resume;
    StartOfPacket(s, script, p, more);
    HeaderAnnounces(p);
    BytesBehindPolls(WholeHeader(script).value.1[1..]);
    NoDataIsUndefined(s.(noDataOpers := 0), HeaderOf(p), WholeHeader(script).value.1);
  }

  lemma {:induction false} BytesBehindPolls(script: seq<Event>)
    ensures Stream(script) != [] || Closes(script) ==> Polls(script) < |script|
  {
    if script != [] && script[0].NoData? {
      BytesBehindPolls(script[1..]);
      if Closes(script) {
        ClosesBehind(script);
      }
    }
  }

  /** The peer closes at the end of what it sends. */
  predicate Closes(script: seq<Event>) {
    exists k :: 0 <= k < |script| && script[k].Closed?
  }

  lemma ClosesBehind(script: seq<Event>)
    requires Closes(script) && !script[0].Closed?
    ensures Closes(script[1..])
  {
    var k :| 0 <= k < |script| && script[k].Closed?;
    assert script[1..][k - 1].Closed?;
  }

  lemma NoDataIsUndefined(s: State, header: Header, script: seq<Event>)
    requires s.open && s.pending.None? && s.noDataOpers == 0 && s.accepts(header) && !BadHeader(header)
    requires header.remaining != 0 && script != [] && script[0].NoData? && Polls(script[1..]) + 1 < |script|
    ensures var r := AfterHeader(s, Some(header), script);
            && Consistent(r.state) && r.outcome.Nothing? && r.state.open && |r.script| < |script|
            && var end := Run(r.state, r.script);
               if Polls(script[1..]) <= NO_DATA_LIMIT then end.outcome == Undefined
               else end.outcome == Nothing && !end.state.open
  {
    hide Polls;
    MissedStart(AfterHeader(s, Some(header), script).state, script[1..]);
  }

  /** A call that goes on in front of the buffer touches nothing until there is something to read. */
  lemma {:induction false} MissedStart(s: State, script: seq<Event>)
    requires Consistent(s) && s.open && s.pending.Some? && s.pending.value.bytesRead < 0
    requires s.noDataOpers <= NO_DATA_LIMIT && Polls(script) < |script|
    ensures var r := Run(s, script);
            if s.noDataOpers + Polls(script) <= NO_DATA_LIMIT then r.outcome == Undefined
            else r.outcome == Nothing && !r.state.open
    decreases |script|
  {
    if script[0].NoData? {
      assert Step(s, script) == Result(CountNoData(s), script[1..], Nothing);
      if s.noDataOpers < NO_DATA_LIMIT {
        MissedStart(CountNoData(s), script[1..]);
      }
    }
  }

  /**
   * The events that bring a packet in: at most 25 polls before it, with the `noData` ones since the last header, its header
   * whole, data on the first read of its body, and at most 25 polls within the body.
   */
  predicate Smooth(noData: nat, script: seq<Event>, p: Sent) {
    var here := script[Polls(script)..];
    && noData + Polls(script) <= NO_DATA_LIMIT
    && here != [] && here[0].Data? && WholeHeader(here).Some?
    && var behind := WholeHeader(here).value.1;
       && (p.body != [] ==> behind != [] && behind[0].Data?)
       && Deliver(behind, |p.body|).Some? && Deliver(behind, |p.body|).value.polls <= NO_DATA_LIMIT
  }

  /** What a smooth packet leaves behind. */
  function Behind(noData: nat, script: seq<Event>, p: Sent): Delivery
    requires Smooth(noData, script, p)
  {
    Deliver(WholeHeader(script[Polls(script)..]).value.1, |p.body|).value
  }

  /** The packet at the front of the stream is received as what it is, and no more than it. */
  ghost predicate Arrives(r: Result, p: Sent, more: seq<byte>) {
    r.outcome == Arrived(HeaderOf(p), p.body) && Stream(r.script) == more
  }

  /**
   * The calls of the reader return the packet at the front of the stream, and leave exactly what is behind it, if and only
   * if the application accepts its header and the events that bring it in are smooth.
   */
  lemma ArrivesExactly(s: State, script: seq<Event>, p: Sent, more: seq<byte>)
    requires s.open && s.pending.None? && s.noDataOpers <= NO_DATA_LIMIT && Sendable(p)
    requires Stream(script) == WireOf(p) + more
    ensures Arrives(Run(s, script), p, more) <==> s.accepts(HeaderOf(p)) && Smooth(s.noDataOpers, script, p)
    ensures s.accepts(HeaderOf(p)) && Smooth(s.noDataOpers, script, p) ==>
              var (r, d) := (Run(s, script), Behind(s.noDataOpers, script, p));
              r.state == State(true, None, d.polls, s.accepts) && r.script == d.rest && d.polls <= NO_DATA_LIMIT
  {
    hide WholeHeader, Deliver, Packet, RemainingLength.Encoding, Run;
    var z := Polls(script);
    var here := script[z..];
    PollsSkipped(s, script);
    if s.noDataOpers + z <= NO_DATA_LIMIT {
      var s' := s.(noDataOpers := s.noDataOpers + z);
      assert Stream(here) != [];
      assert here != [] && here[0].Data?;
      if WholeHeader(here).None? {
        ShortHeaderMisses(s', here, p, more);
      } else if !s.accepts(HeaderOf(p)) {
        VetoedIsLost(s', here, p, more);
      } else {
        BodyIsBehind(here, p, more);
        var behind := WholeHeader(here).value.1;
        if p.body != [] && behind[0].NoData? {
          NoDataOnFirstBodyRead(s', here, p, more);
        } else {
          PacketArrives(s', here, p, more);
        }
      }
    }
  }

  lemma VetoedIsLost(s: State, script: seq<Event>, p: Sent, more: seq<byte>)
    requires s.open && s.pending.None? && Sendable(p) && !s.accepts(HeaderOf(p))
    requires Stream(script) == WireOf(p) + more && WholeHeader(script).Some?
    ensures var r := Run(s, script); r.outcome == Nothing && !r.state.open
  {
    hide WireOf, HeaderOf, Start, WholeHeader, BadHeader, Resume;
    StartOfPacket(s, script, p, more);
  }

  /** Behind a whole header the script has the body to offer. */
  lemma BodyIsBehind(script: seq<Event>, p: Sent, more: seq<byte>)
    requires Sendable(p) && Stream(script) == WireOf(p) + more && WholeHeader(script).Some?
    ensures var behind := WholeHeader(script).value.1;
            && Stream(behind) == p.body + more && Deliver(behind, |p.body|).Some?
            && (p.body != [] ==> behind != [] && !behind[0].Closed?)
  {
    hide WireOf, HeaderOf, Start, AfterHeader, WholeHeader, BadHeader;
    var s := State(true, None, 0, _ => true);
    StartOfPacket(s, script, p, more);
    DeliverySplitsStream(WholeHeader(script).value.1, |p.body|);
  }

  /* ---------- A peer that closes ---------- */

  /** Receiving keeps the closing ahead; what does not shorten the events leaves data in front. */
  lemma ReceiveKeepsClosing(script: seq<Event>, max: nat)
    requires 0 < max && Closes(script)
    ensures var (received, rest) := Receive(script, max);
            && Closes(rest) && |rest| <= |script|
            && (!received.Gone? ==> |rest| < |script| || rest[0].Data?)
  {
    if !script[0].Closed? {
      ClosesBehind(script);
      var (received, rest) := Receive(script, max);
      if |rest| == |script| {
        var k :| 0 <= k < |script[1..]| && script[1..][k].Closed?;
        assert rest[k + 1].Closed?;
      }
    }
  }

  lemma {:induction false} MoreHeaderKeepsClosing(bytes: seq<byte>, k: nat, script: seq<Event>)
    requires |bytes| == 2 + k && k <= 3 && Closes(script)
    ensures var (read, rest) := MoreHeader(bytes, k, script);
            && Closes(rest) && |rest| <= |script|
            && (read.Whole? ==> |rest| < |script| || rest == script || rest[0].Data?)
    decreases 3 - k
  {
    hide Closes, Receive;
    if k < 3 && 128 <= bytes[1 + k] {
      ReceiveKeepsClosing(script, 1);
      ReceiveSizes(script, 1);
      var (received, rest) := Receive(script, 1);
      if received.Bytes? {
        MoreHeaderKeepsClosing(bytes + received.data, k + 1, rest);
      }
    }
  }

  /** A first read that comes to nothing takes an event, or leaves a packet under way in front of the closing. */
  lemma FirstReadKeepsClosing(s: State, header: Header, script: seq<Event>)
    requires Closes(script) && s.open
    ensures var r := FirstRead(s, header, script);
            && (r.outcome.Nothing? && r.state.open ==>
                  Closes(r.script) && (|r.script| < |script| || (r.script == script && script[0].Closed?)))
            && r.state.noDataOpers == s.noDataOpers
  {
    hide Closes;
    if header.remaining != 0 {
      ReceiveKeepsClosing(script, header.remaining);
      TakesWholeChunks(script, header.remaining);
    }
  }

  /** Less than was asked for is the whole next chunk. */
  lemma TakesWholeChunks(script: seq<Event>, max: nat)
    requires 0 < max && Closes(script)
    ensures var (received, rest) := Receive(script, max);
            && (received.Bytes? && |received.data| < max ==> |rest| < |script|)
            && (received.Again? ==> |rest| < |script|)
            && (received.Gone? ==> rest == script && script[0].Closed?)
  {
  }

  /** Every call that comes to nothing and keeps the connection takes an event. */
  lemma StepTowardsClosing(s: State, script: seq<Event>)
    requires Consistent(s) && s.open && s.noDataOpers <= NO_DATA_LIMIT && Closes(script)
    ensures var r := Step(s, script);
            r.outcome.Nothing? && r.state.open ==>
              Closes(r.script) && |r.script| < |script| && r.state.noDataOpers <= NO_DATA_LIMIT
  {
    hide Closes, FirstRead, MoreHeader, ReadHeader, Receive;
    if s.pending.Some? {
      ReceiveKeepsClosing(script, s.pending.value.remaining);
      TakesWholeChunks(script, s.pending.value.remaining);
    } else {
      StartTowardsClosing(s, script);
    }
  }

  lemma StartTowardsClosing(s: State, script: seq<Event>)
    requires s.pending.None? && s.open && s.noDataOpers <= NO_DATA_LIMIT && Closes(script)
    ensures var r := Start(s, script);
            r.outcome.Nothing? && r.state.open ==>
              Closes(r.script) && |r.script| < |script| && r.state.noDataOpers <= NO_DATA_LIMIT
  {
    hide Closes, FirstRead, MoreHeader, ReadHeader, Receive;
    var (received, rest) := Receive(script, 2);
    ReceiveKeepsClosing(script, 2);
    TakesWholeChunks(script, 2);
    if received.Bytes? {
      MoreHeaderKeepsClosing(FirstTwo(received.data), 0, rest);
      var (header, behind) := MoreHeader(FirstTwo(received.data), 0, rest);
      if header.Whole? && ReadHeader(header.bytes).Some? {
        FirstReadKeepsClosing(s.(noDataOpers := 0), ReadHeader(header.bytes).value, behind);
      }
    }
  }

  /**
   * A peer that closes is noticed, whatever it sent before and however it came in: the calls end with a packet, outside the
   * buffer, or with the connection closed.
   */
  lemma {:induction false} ClosingIsNoticed(s: State, script: seq<Event>)
    requires Consistent(s) && s.open && s.noDataOpers <= NO_DATA_LIMIT && Closes(script)
    ensures var r := Run(s, script); r.outcome.Nothing? ==> !r.state.open
    decreases |script|
  {
    hide Step, Closes;
    StepKeepsConsistent(s, script);
    StepTowardsClosing(s, script);
    var r := Step(s, script);
    if r.outcome.Nothing? && r.state.open {
      ClosingIsNoticed(r.state, r.script);
    }
  }

  /** Inside a packet: if the peer closes before its last byte, no packet comes out and the connection is closed. */
  lemma CutInsideCloses(s: State, script: seq<Event>)
    requires Consistent(s) && s.open && s.noDataOpers <= NO_DATA_LIMIT && Closes(script)
    requires s.pending.Some? && 0 <= s.pending.value.bytesRead && |Stream(script)| < s.pending.value.remaining
    ensures var r := Run(s, script);
            r.outcome == Nothing && !r.state.open && (r.state.pending.None? || NO_DATA_LIMIT < r.state.noDataOpers)
  {
    hide Run;
    ClosingIsNoticed(s, script);
    CutIsDropped(s, script);
    RunConsumes(s, script);
    RunStaysInside(s, script);
  }

  /** What came of a packet is dropped, unless it were the polls that closed the connection. */
  lemma {:induction false} CutIsDropped(s: State, script: seq<Event>)
    requires Consistent(s) && s.open && s.noDataOpers <= NO_DATA_LIMIT && Closes(script)
    requires s.pending.Some? && 0 <= s.pending.value.bytesRead && |Stream(script)| < s.pending.value.remaining
    ensures var r := Run(s, script); r.state.pending.None? || NO_DATA_LIMIT < r.state.noDataOpers
    decreases |script|
  {
    if !script[0].Closed? {
      ClosesBehind(script);
      var r := Step(s, script);
      if r.state.open {
        CutIsDropped(r.state, script[1..]);
      }
    }
  }

  lemma {:induction false} RunStaysInside(s: State, script: seq<Event>)
    requires Consistent(s) && s.pending.Some? && 0 <= s.pending.value.bytesRead
    ensures !Run(s, script).outcome.Undefined?
    decreases |script|
  {
    var r := Step(s, script);
    if r.outcome.Nothing? && r.state.open && |r.script| < |script| {
      RunStaysInside(r.state, r.script);
    }
  }

  /** Between packets: a peer that sends nothing more and closes has its connection closed. */
  lemma CutBetweenCloses(s: State, script: seq<Event>)
    requires s.open && s.pending.None? && s.noDataOpers <= NO_DATA_LIMIT && Closes(script) && Stream(script) == []
    ensures var r := Run(s, script);
            && r.outcome == Nothing && !r.state.open && r.state.pending.None?
            && (r.state.noDataOpers == 0 || NO_DATA_LIMIT < r.state.noDataOpers)
  {
    PollsSkipped(s, script);
    BytesBehindPolls(script);
  }

  /** The header comes whole, or the peer closes while its size field is read. */
  predicate HeaderInTime(script: seq<Event>) {
    var (received, rest) := Receive(script, 2);
    received.Bytes? && |received.data| == 2 && (WholeHeader(script).Some? || MoreHeader(received.data, 0, rest).0.Cut?)
  }

  /** After a whole header, the first read of the body finds no data. */
  predicate BodyIsLate(script: seq<Event>) {
    WholeHeader(script).Some? && var behind := WholeHeader(script).value.1; behind != [] && behind[0].NoData?
  }

  /** The header at the front of a packet's bytes is that packet's. */
  lemma HeaderOfFront(bytes: seq<byte>, rest: seq<byte>, p: Sent)
    requires HeaderShape(bytes) && Sendable(p) && bytes + rest == WireOf(p)
    ensures ReadHeader(bytes) == Some(HeaderOf(p)) && |bytes| == HeaderOf(p).size && !BadHeader(HeaderOf(p))
  {
    hide Packet, RemainingLength.Encoding, ReadHeader;
    HeaderRoundTrip(p.kind, p.flags, p.body, []);
    HeaderDecided(bytes, rest);
    assert WireOf(p) + [] == WireOf(p);
  }

  lemma WholeHeaderShape(script: seq<Event>)
    requires WholeHeader(script).Some?
    ensures HeaderShape(WholeHeader(script).value.0)
  {
    var (received, rest) := Receive(script, 2);
    MoreHeaderFromStream(received.data, 0, rest);
  }

  /** A whole header of a packet that is cut short gives that header and leaves less than the body. */
  lemma StartOfCut(s: State, script: seq<Event>, p: Sent, missing: seq<byte>)
    requires s.open && Sendable(p) && Stream(script) + missing == WireOf(p) && missing != [] && WholeHeader(script).Some?
    ensures var behind := WholeHeader(script).value.1;
            && Start(s, script) == AfterHeader(s.(noDataOpers := 0), Some(HeaderOf(p)), behind)
            && |behind| <= |script| && |Stream(behind)| < |p.body| && !BadHeader(HeaderOf(p))
  {
    hide WireOf, HeaderOf, HeaderShape, ReadHeader, WholeHeader, Start, AfterHeader, BadHeader;
    HeaderIsFront(script);
    StartWithHeader(s, script);
    WholeHeaderShape(script);
    var (bytes, behind) := WholeHeader(script).value;
    assert bytes + (Stream(behind) + missing) == WireOf(p);
    HeaderOfFront(bytes, Stream(behind) + missing, p);
    WireSize(p);
  }

  lemma WireSize(p: Sent)
    requires Sendable(p)
    ensures |WireOf(p)| == HeaderOf(p).size + |p.body|
  {
  }

  /**
   * The peer closes before the last byte of a packet whose header is not misread. No packet comes out and the connection is
   * closed, unless the first read of the body found no data and at most 25 further polls come before the next event: then
   * a call writes in front of the buffer.
   */
  lemma CutPacketExactly(s: State, script: seq<Event>, p: Sent, missing: seq<byte>)
    requires s.open && s.pending.None? && s.noDataOpers <= NO_DATA_LIMIT && Sendable(p) && Closes(script)
    requires Stream(script) + missing == WireOf(p) && missing != []
    requires var here := script[Polls(script)..]; Stream(script) != [] ==> HeaderInTime(here)
    ensures var (z, r) := (Polls(script), Run(s, script));
            var here := script[z..];
            if s.noDataOpers + z <= NO_DATA_LIMIT && s.accepts(HeaderOf(p)) && BodyIsLate(here)
               && Polls(WholeHeader(here).value.1[1..]) <= NO_DATA_LIMIT
            then r.outcome == Undefined
            else r.outcome == Nothing && !r.state.open
  {
    hide Run, WholeHeader, WireOf, HeaderOf, MoreHeader, Receive;
    var z := Polls(script);
    PollsSkipped(s, script);
    if Stream(script) == [] {
      CutBetweenCloses(s, script);
      NoBytesNoHeader(script[z..]);
    } else if s.noDataOpers + z <= NO_DATA_LIMIT {
      var here := script[z..];
      ClosesFrom(script, z);
      CutHere(s.(noDataOpers := s.noDataOpers + z), here, p, missing);
    }
  }

  lemma NoBytesNoHeader(script: seq<Event>)
    requires Stream(script) == []
    ensures WholeHeader(script).None?
  {
    if Receive(script, 2).0.Bytes? {
      ReceivedFromStream(script, 2);
    }
  }

  lemma {:induction false} ClosesFrom(script: seq<Event>, z: nat)
    requires Closes(script) && z <= Polls(script)
    ensures Closes(script[z..])
  {
    if 0 < z {
      ClosesBehind(script);
      ClosesFrom(script[1..], z - 1);
      assert script[1..][z - 1..] == script[z..];
    } else {
      assert script[z..] == script;
    }
  }

  lemma CutHere(s: State, script: seq<Event>, p: Sent, missing: seq<byte>)
    requires s.open && s.pending.None? && s.noDataOpers <= NO_DATA_LIMIT && Sendable(p) && Closes(script)
    requires Stream(script) + missing == WireOf(p) && missing != [] && HeaderInTime(script)
    ensures var r := Run(s, script);
            if s.accepts(HeaderOf(p)) && BodyIsLate(script) && Polls(WholeHeader(script).value.1[1..]) <= NO_DATA_LIMIT
            then r.outcome == Undefined
            else r.outcome == Nothing && !r.state.open
  {
    hide WholeHeader, WireOf, HeaderOf, MoreHeader, Polls, AfterHeader, Resume;
    if WholeHeader(script).None? {
      assert Start(s, script).outcome == Nothing && !Start(s, script).state.open by {
        CutHeaderCloses(s, script);
      }
    } else {
      StartOfCut(s, script, p, missing);
      HeaderAnnounces(p);
      var behind := WholeHeader(script).value.1;
      WholeHeaderKeepsClosing(script);
      CutBody(s.(noDataOpers := 0), HeaderOf(p), behind);
    }
  }

  lemma CutHeaderCloses(s: State, script: seq<Event>)
    requires s.open && HeaderInTime(script) && WholeHeader(script).None?
    ensures Start(s, script).outcome == Nothing && !Start(s, script).state.open
  {
    hide ReadHeader, AfterHeader, MoreHeader;
  }

  lemma WholeHeaderKeepsClosing(script: seq<Event>)
    requires Closes(script) && WholeHeader(script).Some?
    ensures var behind := WholeHeader(script).value.1;
            Closes(behind) && |behind| <= |script| && (|behind| < |script| || behind[0].Data?)
  {
    hide Closes, MoreHeader;
    var (received, rest) := Receive(script, 2);
    ReceiveKeepsClosing(script, 2);
    MoreHeaderFromStream(received.data, 0, rest);
    MoreHeaderKeepsClosing(received.data, 0, rest);
  }

  /** The first read of a body that is cut short, and the calls behind it. */
  lemma CutBody(s: State, header: Header, script: seq<Event>)
    requires s.open && s.pending.None? && s.noDataOpers == 0 && Closes(script) && |Stream(script)| < header.remaining
    requires !BadHeader(header)
    ensures var r := AfterHeader(s, Some(header), script);
            && Consistent(r.state) && !r.outcome.Arrived?
            && (r.outcome.Nothing? && r.state.open ==>
                  |r.script| < |script| || (|r.script| == |script| && script[0].Closed?))
            && var end := if r.outcome.Nothing? && r.state.open then Run(r.state, r.script) else r;
               if s.accepts(header) && script[0].NoData? && Polls(script[1..]) <= NO_DATA_LIMIT then end.outcome == Undefined
               else end.outcome == Nothing && !end.state.open
  {
    hide Run, Polls;
    if s.accepts(header) {
      match script[0] {
        case NoData =>
          ClosesBehind(script);
          BytesBehindPolls(script[1..]);
          NoDataIsUndefined(s, header, script);
        case Closed(stale) =>
          if stale {
            CutInsideCloses(AfterHeader(s, Some(header), script).state, script);
          }
        case Data(chunk) =>
          ClosesBehind(script);
          CutInsideCloses(AfterHeader(s, Some(header), script).state, script[1..]);
      }
    }
  }

  /* ---------- Several packets ---------- */

  ghost predicate AllSendable(ps: seq<Sent>) {
    forall i :: 0 <= i < |ps| ==> Sendable(ps[i])
  }

  ghost function Wires(ps: seq<Sent>): seq<byte>
    requires AllSendable(ps)
  {
    if ps == [] then [] else WireOf(ps[0]) + Wires(ps[1..])
  }

  /** Run after run returns the packets in their order, each whole, and leaves what is behind the last. */
  ghost predicate AllArrive(s: State, script: seq<Event>, ps: seq<Sent>, more: seq<byte>)
    requires Consistent(s) && AllSendable(ps)
    decreases |ps|
  {
    if ps == [] then Stream(script) == more
    else
      var r := Run(s, script);
      Arrives(r, ps[0], Wires(ps[1..]) + more) && r.state.pending.None? && AllArrive(r.state, r.script, ps[1..], more)
  }

  /** Every packet is accepted and comes in smoothly, where the one before it ended. */
  ghost predicate AllSmooth(s: State, script: seq<Event>, ps: seq<Sent>)
    decreases |ps|
  {
    ps == [] ||
    (s.accepts(HeaderOf(ps[0])) && Smooth(s.noDataOpers, script, ps[0])
     && var d := Behind(s.noDataOpers, script, ps[0]);
        AllSmooth(State(true, None, d.polls, s.accepts), d.rest, ps[1..]))
  }

  /** All packets of a stream are received in order, if and only if each is accepted and comes in smoothly. */
  lemma {:induction false} SequenceArrivesExactly(s: State, script: seq<Event>, ps: seq<Sent>, more: seq<byte>)
    requires s.open && s.pending.None? && s.noDataOpers <= NO_DATA_LIMIT && AllSendable(ps)
    requires Stream(script) == Wires(ps) + more
    ensures AllArrive(s, script, ps, more) <==> AllSmooth(s, script, ps)
    decreases |ps|
  {
    hide WireOf, HeaderOf, Smooth, Behind, Run, Stream;
    if ps == [] {
      assert [] + more == more;
    } else {
      var later := Wires(ps[1..]) + more;
      assert WireOf(ps[0]) + Wires(ps[1..]) + more == WireOf(ps[0]) + later;
      ArrivesExactly(s, script, ps[0], later);
      if s.accepts(HeaderOf(ps[0])) && Smooth(s.noDataOpers, script, ps[0]) {
        var r := Run(s, script);
        SequenceArrivesExactly(r.state, r.script, ps[1..], more);
      }
    }
  }

  /* ---------- What is read instead ---------- */

  /** A first byte that comes alone is taken for a packet without a body, whatever follows it. */
  lemma LoneHeaderByte(s: State, script: seq<Event>, b: byte)
    requires s.open && s.pending.None? && script != [] && script[0] == Data([b])
    ensures var h := Header(b / 16, Flags(Bit(b, 3), b / 2 % 4, Bit(b, 0)), 0, 2);
            Step(s, script) ==
              if BadHeader(h) || !s.accepts(h) then Result(s.(open := false, noDataOpers := 0), script[1..], Nothing)
              else Result(s.(noDataOpers := 0), script[1..], Arrived(h, []))
  {
    assert FirstTwo([b]) == [b, 0];
    assert [b, 0][1..] == [0];
    assert RemainingLength.Value([0][..1]) == 0;
  }

  /** No data when the second size byte is asked for: all but the last seven bits of the packet's size are taken as 0. */
  lemma MissingSizeByte(s: State, script: seq<Event>, p: Sent, more: seq<byte>)
    requires s.open && s.pending.None? && Sendable(p) && 128 <= |p.body| && Stream(script) == WireOf(p) + more
    requires 2 <= |script| && script[0].Data? && |script[0].chunk| == 2 && script[1].NoData?
    ensures Start(s, script)
         == AfterHeader(s.(noDataOpers := 0), Some(Header(p.kind, p.flags, |p.body| % 128, 3)), script[2..])
  {
    hide AfterHeader, Bit, HeaderByte;
    var size := |p.body| % 128 + 128;
    assert RemainingLength.Encoding(|p.body|)[0] == size;
    FlagsOfHeaderByte(p.kind, p.flags);
    var first := HeaderByte(p.kind, p.flags);
    assert WireOf(p)[0] == first && WireOf(p)[1] == size;
    assert Stream(script)[0] == first && Stream(script)[1] == size;
    assert script[0].chunk == [first, size];
    var read := [first, size, 0];
    assert MoreHeader([first, size], 0, script[1..]) == (Whole(read), script[2..]) by {
      assert [first, size] + [0] == read;
    }
    var field := read[1..];
    assert RemainingLength.FieldSize(field, 1) == 2;
    assert field[..2] == field && field[1..] == [0];
    assert RemainingLength.Value([0]) == 0;
    assert ReadHeader(read) == Some(Header(p.kind, p.flags, |p.body| % 128, 3));
  }

  /* ---------- The reader as the code has it ---------- */

  class Socket {
    var script: seq<Event>

    /**
     * Receives into `buffer` at `at`, ending what came with a NUL; -2 stands for "no data", 0 for a closed peer. `outside`
     * says that this would write in front of the buffer.
     */
    method ReceiveRaw(buffer: array<byte>, at: int, max: nat) returns (nread: int, staleErrno: bool, outside: bool)
      requires 0 < max && 0 <= at + max < buffer.Length
      modifies this`script, buffer
      ensures var (received, rest) := Receive(old(script), max);
              && script == rest
              && (outside <==> at < 0 && !received.Again?)
              && (outside ==> buffer[..] == old(buffer[..]))
              && match received
                 case Again => nread == -2 && buffer[..] == old(buffer[..])
                 case Gone(stale) =>
                   nread == 0 && staleErrno == stale && (!outside ==> at < buffer.Length && buffer[..] == old(buffer[..])[at := 0])
                 case Bytes(data) =>
                   && nread == |data|
                   && (!outside ==>
                         && buffer[..at + nread] == old(buffer[..at]) + data && buffer[at + nread] == 0
                         && buffer[at + nread + 1..] == old(buffer[at + |data| + 1..]))
    {
      var (received, rest) := Receive(script, max);
      script := rest;
      staleErrno, outside := false, at < 0 && !received.Again?;
      match received {
        case Again => nread := -2;
        case Gone(stale) =>
          nread, staleErrno := 0, stale;
          if !outside {
            buffer[at] := 0;
          }
        case Bytes(data) =>
          nread := |data|;
          if !outside {
            forall k | 0 <= k < |data| {
              buffer[at + k] := data[k];
            }
            buffer[at + nread] := 0;
          }
      }
    }
  }

  class Connection {
    var open: bool
    var buffer: array?<byte>
    var lastMsg: Header
    var remainingBytes: int
    var bytesRead: int
    var noDataOpers: nat
    const accepts: Header -> bool

    ghost predicate Valid()
      reads this, buffer
    {
      if buffer == null then remainingBytes == 0 && bytesRead == 0
      else
        && buffer.Length == lastMsg.remaining + 1
        && bytesRead + remainingBytes == lastMsg.remaining && 0 < remainingBytes
    }

    ghost function Abstract(): (s: State)
      requires Valid()
      reads this, buffer
      ensures Consistent(s)
    {
      State(open,
            if buffer == null then None
            else Some(Pending(lastMsg, if bytesRead < 0 then [] else buffer[..bytesRead], bytesRead, remainingBytes)),
            noDataOpers, accepts)
    }

    constructor (accepts: Header -> bool)
      ensures Valid() && Abstract() == State(true, None, 0, accepts)
    {
      this.accepts := accepts;
      open, buffer, noDataOpers := true, null, 0;
      remainingBytes, bytesRead := 0, 0;
      lastMsg := Header(0, Flags(false, 0, false), 0, 0);
    }

    /** The next packet of the connection, if it is whole by now. */
    method GetNext(socket: Socket) returns (outcome: Outcome)
      requires Valid() && open
      modifies this, socket, buffer
      ensures Valid()
      ensures Result(Abstract(), socket.script, outcome) == Step(old(Abstract()), old(socket.script))
    {
      if buffer != null {
        outcome := ReceiveRest(socket);
      } else {
        outcome := ReceiveHeader(socket);
      }
    }

    method ReceiveRest(socket: Socket) returns (outcome: Outcome)
      requires Valid() && buffer != null
      modifies this, socket, buffer
      ensures Valid()
      ensures Result(Abstract(), socket.script, outcome) == Resume(old(Abstract()), old(socket.script))
    {
      var nread, stale, outside := socket.ReceiveRaw(buffer, bytesRead, remainingBytes);
      if outside {
        return Undefined;
      }
      if nread == 0 {
        open, buffer, remainingBytes, bytesRead := false, null, 0, 0;
        return Nothing;
      }
      if nread == -2 {
        NoDataFound();
        return Nothing;
      }
      if nread != remainingBytes {
        nread := nread + bytesRead;
        remainingBytes, bytesRead := lastMsg.remaining - nread, nread;
        return Nothing;
      }
      var payload := buffer[..lastMsg.remaining];
      buffer, remainingBytes, bytesRead := null, 0, 0;
      return Arrived(lastMsg, payload);
    }

    method NoDataFound()
      requires Valid()
      modifies this`noDataOpers, this`open
      ensures Valid() && Abstract() == CountNoData(old(Abstract()))
    {
      noDataOpers := noDataOpers + 1;
      open := noDataOpers <= 25;
    }

    method ReceiveHeader(socket: Socket) returns (outcome: Outcome)
      requires Valid() && open && buffer == null
      modifies this, socket
      ensures Valid()
      ensures Result(Abstract(), socket.script, outcome) == Start(old(Abstract()), old(socket.script))
    {
      var header := new byte[6](_ => 0);
      var nread, stale, outside := socket.ReceiveRaw(header, 0, 2);
      if nread == -2 {
        NoDataFound();
        return Nothing;
      }
      noDataOpers := 0;
      if nread == 0 {
        open := false;
        return Nothing;
      }
      ghost var received := Receive(old(socket.script), 2).0;
      assert header[..2] == FirstTwo(received.data) by {
        assert header[..nread] == received.data;
      }
      var cut, size := ReceiveSizeField(socket, header);
      if cut {
        open := false;
        return Nothing;
      }
      outcome := AcceptHeader(socket, ReadHeader(header[..size]));
    }

    /** Reads on while the size field says so; `cut` when the peer closed. */
    static method ReceiveSizeField(socket: Socket, header: array<byte>) returns (cut: bool, size: nat)
      requires header.Length == 6 && (header[1] < 128 || header[2] == 0)
      modifies socket, header
      ensures size <= 5
      ensures var (read, rest) := MoreHeader(old(header[..2]), 0, old(socket.script));
              && socket.script == rest
              && match read
                 case Whole(bytes) => !cut && header[..size] == bytes
                 case Cut => cut
    {
      var k := 0;
      cut, size := false, 2;
      ghost var all := MoreHeader(header[..2], 0, socket.script);
      while k < 3
        invariant k <= 3 && size == 2 + k && (header[1 + k] < 128 || header[size] == 0)
        invariant MoreHeader(header[..size], k, socket.script) == all
        decreases 3 - k
      {
        if header[1 + k] < 128 {
          break;
        }
        k := k + 1;
        ghost var before := header[..size];
        var nread, stale, outside := socket.ReceiveRaw(header, 1 + k, 1);
        if nread == 0 {
          return true, size;
        }
        size := size + 1;
        if nread == -2 {
          assert header[..size] == before + [0];
          return false, size;
        }
      }
    }

    method AcceptHeader(socket: Socket, header: Option<Header>) returns (outcome: Outcome)
      requires Valid() && open && buffer == null
      modifies this, socket
      ensures Valid()
      ensures Result(Abstract(), socket.script, outcome) == AfterHeader(old(Abstract()), header, old(socket.script))
    {
      if header.None? || BadHeader(header.value) || !accepts(header.value) {
        open := false;
        return Nothing;
      }
      var msg := header.value;
      if msg.remaining == 0 {
        return Arrived(msg, []);
      }
      var body := new byte[msg.remaining + 1];
      var nread, stale, outside := socket.ReceiveRaw(body, 0, msg.remaining);
      ghost var received := Receive(old(socket.script), msg.remaining).0;
      assert received.Bytes? ==> body[..nread] == received.data;
      if nread == 0 && !stale {
        open := false;
        return Nothing;
      }
      if nread != msg.remaining {
        lastMsg, buffer := msg, body;
        remainingBytes, bytesRead := msg.remaining - nread, nread;
        return Nothing;
      }
      return Arrived(msg, body[..msg.remaining]);
    }
  }
}
