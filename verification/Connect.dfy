/**
 * The CONNECT packet: the client's flags and optional arguments (lib/myqtt-conn.c), the server's parse
 * (lib/myqtt-reader.c).
 */
module Connect {
  import opened Bytes
  import opened Message
  import opened Wrappers
  import opened Payload
  import RemainingLength

  const MQTT: CString := [77, 81, 84, 84]
  const MQISDP: CString := [77, 81, 73, 115, 100, 112]

  const IDENTIFIER_REJECTED := 2
  const SERVER_UNAVAILABLE := 3

  /* Bits of the flags byte. */
  const CLEAN_SESSION: nat := 1
  const WILL: nat := 2
  const WILL_QOS_1: nat := 3
  const WILL_QOS_2: nat := 4
  const PASSWORD: nat := 6
  const USERNAME: nat := 7

  datatype Will = Will(topic: CString, message: CString, qos: int)

  /** The client's connection options; `willRetain` is kept with them but has no bit in the packet. */
  datatype Options = Options(useAuth: bool, username: Option<CString>, password: Option<CString>,
                             will: Option<Will>, willRetain: bool)

  /** What the server knows of a client after its CONNECT. */
  datatype Client = Client(clientId: CString, cleanSession: bool, keepAlive: nat,
                           will: Option<Will>, username: Option<CString>, password: Option<CString>)

  datatype Reply = Continue(client: Client) | Refuse(code: nat)

  /** The server's side of the checks: client ids in use, encoding, session storage, a name for nameless clients. */
  datatype Server = Server(registered: set<CString>, utf8: CString -> bool, storage: CString -> bool, generated: CString)

  /* ---------- Client ---------- */

  /** The flags byte, bit by bit. */
  datatype ConnectFlags = ConnectFlags(clean: bool, will: bool, willQos1: bool, willQos2: bool,
                                       password: bool, username: bool, reserved: bool, willRetain: bool)

  function Unpack(flags: byte): ConnectFlags {
    ConnectFlags(Bit(flags, CLEAN_SESSION), Bit(flags, WILL), Bit(flags, WILL_QOS_1), Bit(flags, WILL_QOS_2),
                 Bit(flags, PASSWORD), Bit(flags, USERNAME), Bit(flags, 0), Bit(flags, 5))
  }

  /** What the options ask for; nothing ever sets the bit of the will's retain flag. */
  function Wanted(clean: bool, o: Options): ConnectFlags {
    ConnectFlags(clean, o.will.Some?, o.will.Some? && o.will.value.qos == 1, o.will.Some? && o.will.value.qos == 2,
                 o.useAuth && o.password.Some?, o.useAuth && o.username.Some?, false, false)
  }

  method Set(flags: byte, which: nat) returns (r: byte)
    requires which < 8
    ensures forall k :: 0 <= k < 8 ==> (Bit(r, k) <==> k == which || Bit(flags, k))
  {
    forall k | 0 <= k < 8 ensures Bit(SetBit(flags, which), k) <==> k == which || Bit(flags, k) {
      SetBitBits(flags, which, k);
    }
    r := SetBit(flags, which);
  }

  lemma NoBitsOfZero(k: nat)
    ensures !Bit(0, k)
  {
  }

  method ComputeFlags(clean: bool, o: Options) returns (flags: byte)
    ensures Unpack(flags) == Wanted(clean, o)
  {
    flags := 0;
    forall k: nat | k < 8 ensures !Bit(0, k) {
      NoBitsOfZero(k);
    }
    if clean {
      flags := Set(flags, 1);
    }
    if o.useAuth {
      if o.username.Some? {
        flags := Set(flags, 7);
      }
      if o.password.Some? {
        flags := Set(flags, 6);
      }
    }
    if o.will.Some? {
      flags := Set(flags, 2);
      if o.will.value.qos == 1 {
        flags := Set(flags, 3);
      } else if o.will.value.qos == 2 {
        flags := Set(flags, 4);
      }
    }
  }

  function OptionalText(text: Option<CString>): Param {
    if text.Some? then Utf8(text.value) else Skip
  }

  function WillTopic(o: Options): Option<CString> {
    if o.will.Some? then Some(o.will.value.topic) else None
  }

  function WillMessage(o: Options): Option<CString> {
    if o.will.Some? then Some(o.will.value.message) else None
  }

  function SentText(o: Options, field: Option<CString>): Option<CString> {
    if o.useAuth then field else None
  }

  function Optionals(o: Options): seq<Param> {
    [OptionalText(WillTopic(o)), OptionalText(WillMessage(o)),
     OptionalText(SentText(o, o.username)), OptionalText(SentText(o, o.password))]
  }

  /** What stands in front of the client id besides the flags. */
  datatype Head = Head(protocol: CString, level: byte, keepAlive: nat)

  const OURS: Head := Head(MQTT, 4, 0)

  function Packed(h: Head, flags: byte, clientId: CString, o: Options): seq<Param> {
    [Utf8(h.protocol), Int8(h.level), Int8(flags), Int16(h.keepAlive), Utf8(clientId)] + Optionals(o)
  }

  function Params(flags: byte, clientId: CString, o: Options): seq<Param> {
    Packed(OURS, flags, clientId, o)
  }

  method BuildConnect(clean: bool, clientId: CString, o: Options)
    returns (result: Option<array<byte>>, size: nat, flags: byte)
    ensures Unpack(flags) == Wanted(clean, o)
    ensures result.Some? <==> |Body(Params(flags, clientId, o))| <= RemainingLength.MAX_LENGTH
    ensures result.Some? ==>
              && result.value.Length == size + 1
              && result.value[..size] == Packet(CONNECT, Flags(false, 0, false), Body(Params(flags, clientId, o)))
  {
    flags := ComputeFlags(clean, o);
    result, size := Build(CONNECT, Flags(false, 0, false), Params(flags, clientId, o));
  }

  /* ---------- Server ---------- */

  datatype Admission = Admitted(clientId: CString) | Denied(code: nat)

  function CheckClientId(sent: CString, clean: bool, server: Server): Admission {
    if sent == [] && !clean then Denied(IDENTIFIER_REJECTED)
    else
      var clientId := if sent == [] then server.generated else sent;
      if clientId in server.registered || !server.utf8(clientId) then Denied(IDENTIFIER_REJECTED)
      else if !clean && !server.storage(clientId) then Denied(SERVER_UNAVAILABLE)
      else Admitted(clientId)
  }

  /** A string that is there when its flag is set, with the position behind it. */
  function ParseText(mem: seq<byte>, at: nat, limit: int, present: bool): Read<(Option<CString>, nat)> {
    if present then
      var text :- GetUtf8(mem, at, limit);
      Got((Some(text), at + |text| + 2))
    else Got((None, at))
  }

  function ParseWill(mem: seq<byte>, at: nat, size: nat, flags: ConnectFlags): Read<(Option<Will>, nat)> {
    if flags.will then
      var topic :- GetUtf8(mem, at, size - at);
      var next := at + |topic| + 2;
      var message :- GetUtf8(mem, next, size - next);
      var qos := if flags.willQos2 then 2 else if flags.willQos1 then 1 else 0;
      Got((Some(Will(topic, message, qos)), next + |message| + 2))
    else Got((None, at))
  }

  /** Everything behind the client id. */
  function ParseOptionals(mem: seq<byte>, at: nat, size: nat, flags: ConnectFlags)
    : Read<(Option<Will>, Option<CString>, Option<CString>)>
  {
    var will :- ParseWill(mem, at, size, flags);
    var username :- ParseText(mem, will.1, size - will.1, flags.username);
    var password :- ParseText(mem, username.1, size - username.1, flags.password);
    Got((will.0, username.0, password.0))
  }

  /** The first CONNECT of a connection, read field by field. */
  function Parse(payload: seq<byte>, server: Server): Read<Reply> {
    var (mem, size) := (Memory(payload), |payload|);
    var protocol :- GetUtf8(mem, 0, size);
    if protocol != MQTT && protocol != MQISDP then Closed
    else
      var desp := 2 + |protocol|;
      var level :- GetByte(mem, desp);
      if level != 4 && level != 3 then Closed
      else
        var flagsByte :- GetByte(mem, desp + 1);
        var flags := Unpack(flagsByte);
        var keepAlive :- GetShort(mem, desp + 2);
        var sent :- GetUtf8(mem, desp + 4, size - (desp + 4));
        match CheckClientId(sent, flags.clean, server)
        case Denied(code) => Got(Refuse(code))
        case Admitted(clientId) =>
          var optionals :- ParseOptionals(mem, desp + 4 + |sent| + 2, size, flags);
          Got(Continue(Client(clientId, flags.clean, keepAlive, optionals.0, optionals.1, optionals.2)))
  }

  /* ---------- The server recovers what the client encoded ---------- */

  predicate ShortText(text: Option<CString>) {
    text.Some? ==> |text.value| <= 65535
  }

  predicate ShortTexts(o: Options) {
    && ShortText(WillTopic(o)) && ShortText(WillMessage(o))
    && ShortText(SentText(o, o.username)) && ShortText(SentText(o, o.password))
  }

  /** A will as the server sees it: any QoS other than 1 and 2 arrives as 0. */
  function ReceivedWill(o: Options): Option<Will> {
    if o.will.Some? then
      var will := o.will.value;
      Some(will.(qos := if will.qos == 1 || will.qos == 2 then will.qos else 0))
    else None
  }

  /** The flags say which fields a packet has; the rest of them is the sender's choice. */
  predicate Announces(flags: ConnectFlags, clean: bool, o: Options) {
    && flags.clean == clean && flags.will == o.will.Some?
    && flags.username == SentText(o, o.username).Some? && flags.password == SentText(o, o.password).Some?
  }

  /** A will with the QoS of the flags' bits, where the one for QoS 2 counts more. */
  function FlaggedWill(flags: ConnectFlags, o: Options): Option<Will> {
    if o.will.None? then None
    else Some(o.will.value.(qos := if flags.willQos2 then 2 else if flags.willQos1 then 1 else 0))
  }

  function TextSize(text: Option<CString>): nat {
    if text.Some? then |text.value| + 2 else 0
  }

  predicate TextLies(mem: seq<byte>, at: nat, text: Option<CString>) {
    text.Some? ==> TextAt(mem, at, text.value)
  }

  lemma TextParsed(mem: seq<byte>, at: nat, limit: int, text: Option<CString>)
    requires TextLies(mem, at, text) && TextSize(text) <= limit
    ensures ParseText(mem, at, limit, text.Some?) == Got((text, at + TextSize(text)))
  {
    if text.Some? {
      TextRead(mem, at, text.value, limit);
    }
  }

  lemma WillParsed(mem: seq<byte>, at: nat, size: nat, flags: ConnectFlags, o: Options)
    requires TextLies(mem, at, WillTopic(o)) && TextLies(mem, at + TextSize(WillTopic(o)), WillMessage(o))
    requires at + TextSize(WillTopic(o)) + TextSize(WillMessage(o)) <= size && flags.will == o.will.Some?
    ensures ParseWill(mem, at, size, flags)
         == Got((FlaggedWill(flags, o), at + TextSize(WillTopic(o)) + TextSize(WillMessage(o))))
  {
    hide GetUtf8, TextAt;
    TextParsed(mem, at, size - at, WillTopic(o));
    var next := at + TextSize(WillTopic(o));
    TextParsed(mem, next, size - next, WillMessage(o));
  }

  /** Where the fields of the packet lie. */
  lemma Layout(h: Head, flags: byte, clientId: CString, o: Options)
    requires |h.protocol| <= 65535 && h.keepAlive <= 65535 && |clientId| <= 65535 && ShortTexts(o)
    ensures var payload := Body(Packed(h, flags, clientId, o));
            var mem := Memory(payload);
            var level := 2 + |h.protocol|;
            var will := level + 6 + |clientId|;
            var username := will + TextSize(WillTopic(o)) + TextSize(WillMessage(o));
            var password := username + TextSize(SentText(o, o.username));
            && TextAt(mem, 0, h.protocol) && level + 2 < |mem| && mem[level] == h.level && mem[level + 1] == flags
            && ShortAt(mem, level + 2, h.keepAlive) && TextAt(mem, level + 4, clientId)
            && TextLies(mem, will, WillTopic(o)) && TextLies(mem, will + TextSize(WillTopic(o)), WillMessage(o))
            && TextLies(mem, username, SentText(o, o.username)) && TextLies(mem, password, SentText(o, o.password))
            && |payload| == password + TextSize(SentText(o, o.password))
  {
    hide BodyTo, TextAt, ShortAt;
    var ps := Packed(h, flags, clientId, o);
    ParamAt(ps, 0);
    TextParam(ps, 0, h.protocol);
    ByteParam(ps, 1, h.level);
    ByteParam(ps, 2, flags);
    ShortParam(ps, 3, h.keepAlive);
    TextParam(ps, 4, clientId);
    OptionalLies(h, flags, clientId, o, 5, WillTopic(o));
    OptionalLies(h, flags, clientId, o, 6, WillMessage(o));
    OptionalLies(h, flags, clientId, o, 7, SentText(o, o.username));
    OptionalLies(h, flags, clientId, o, 8, SentText(o, o.password));
  }

  lemma OptionalLies(h: Head, flags: byte, clientId: CString, o: Options, k: nat, text: Option<CString>)
    requires 5 <= k < 9 && Packed(h, flags, clientId, o)[k] == OptionalText(text) && ShortText(text)
    ensures var ps := Packed(h, flags, clientId, o);
            && TextLies(Memory(Body(ps)), Offset(ps, k), text)
            && Offset(ps, k + 1) == Offset(ps, k) + TextSize(text) && Offset(ps, 9) == |Body(ps)|
  {
    if text.Some? {
      TextParam(Packed(h, flags, clientId, o), k, text.value);
    } else {
      ParamAt(Packed(h, flags, clientId, o), k);
    }
  }

  /**
   * For every client's packet, of whatever protocol name, level, keep-alive and flags that announce its fields: the server
   * closes the connection exactly if the name or the level is not one of those it knows; else it recovers what was sent,
   * with the keep-alive, or refuses the client id with the code of the failing check.
   */
  lemma ParsedExactly(h: Head, clean: bool, clientId: CString, o: Options, flags: byte, server: Server)
    requires |h.protocol| <= 65535 && h.keepAlive <= 65535 && |clientId| <= 65535 && ShortTexts(o)
    requires Announces(Unpack(flags), clean, o)
    ensures Parse(Body(Packed(h, flags, clientId, o)), server)
         == if !(h.protocol == [77, 81, 84, 84] || h.protocol == [77, 81, 73, 115, 100, 112]) || !(3 <= h.level <= 4)
            then Closed
            else
              match CheckClientId(clientId, clean, server)
              case Denied(code) => Got(Refuse(code))
              case Admitted(known) =>
                Got(Continue(Client(known, clean, h.keepAlive, FlaggedWill(Unpack(flags), o),
                                    SentText(o, o.username), SentText(o, o.password))))
  {
    hide GetUtf8, GetShort, GetByte, Unpack, ParseOptionals, BodyTo, TextAt, ShortAt;
    var payload := Body(Packed(h, flags, clientId, o));
    var level := 2 + |h.protocol|;
    Layout(h, flags, clientId, o);
    FixedPartParsed(Memory(payload), h, flags, clientId, |payload|);
    OptionalsParsed(Memory(payload), level + 6 + |clientId|, |payload|, Unpack(flags), o);
  }

  /**
   * For every combination of clean session, will and credentials the server recovers exactly what the library's own client
   * sent, or refuses the client id with the code of the failing check.
   */
  lemma RoundTrip(clean: bool, clientId: CString, o: Options, flags: byte, server: Server)
    requires Unpack(flags) == Wanted(clean, o) && |clientId| <= 65535 && ShortTexts(o)
    ensures Parse(Body(Params(flags, clientId, o)), server)
         == match CheckClientId(clientId, clean, server)
            case Denied(code) => Got(Refuse(code))
            case Admitted(known) =>
              Got(Continue(Client(known, clean, 0, ReceivedWill(o),
                                  SentText(o, o.username), SentText(o, o.password))))
  {
    hide Parse, Unpack, BodyTo;
    ParsedExactly(OURS, clean, clientId, o, flags, server);
  }

  /**
   * A client is admitted under its own name, or under a generated one if it sent none and asked for a clean session; the
   * name is then well encoded and nobody else's, and a session to be kept has its storage. Every other client is refused.
   */
  lemma AdmittedExactly(clean: bool, sent: CString, o: Options, flags: byte, server: Server, name: CString)
    requires Unpack(flags) == Wanted(clean, o) && |sent| <= 65535 && ShortTexts(o)
    ensures var reply := Parse(Body(Params(flags, sent, o)), server);
            && reply.Got?
            && (reply.value.Continue? && reply.value.client.clientId == name <==>
                  && (if sent != [] then name == sent else clean && name == server.generated)
                  && name !in server.registered && server.utf8(name) && (clean || server.storage(name)))
            && (reply.value == Refuse(SERVER_UNAVAILABLE) <==>
                  !clean && sent != [] && sent !in server.registered && server.utf8(sent) && !server.storage(sent))
            && (reply.value.Refuse? ==> reply.value.code in {IDENTIFIER_REJECTED, SERVER_UNAVAILABLE})
  {
    hide Parse, Unpack, BodyTo;
    RoundTrip(clean, sent, o, flags, server);
  }

  /**
   * Clients that differ in their wish for a retained will alone send the same packet, so that no way of reading the packet
   * learns the wish of both.
   */
  lemma RetainWishIsLost(clean: bool, clientId: CString, o: Options, flags: byte, flags': byte, wish: bool,
                         learn: seq<byte> -> bool)
    requires Unpack(flags) == Wanted(clean, o) && Unpack(flags') == Wanted(clean, o.(willRetain := wish))
    ensures var sent := Body(Params(flags, clientId, o));
            var sent' := Body(Params(flags', clientId, o.(willRetain := wish)));
            && sent == sent'
            && (wish != o.willRetain ==> learn(sent) != o.willRetain || learn(sent') != wish)
    ensures !Bit(flags, 5) && !Bit(flags, 0)
  {
    hide Bit, Body;
    assert Unpack(flags) == Unpack(flags');
    PowersOfTwo();
    BitsDecide(flags, flags', 8);
    assert Params(flags, clientId, o) == Params(flags', clientId, o.(willRetain := wish));
  }

  lemma FixedPartParsed(mem: seq<byte>, h: Head, flags: byte, clientId: CString, size: nat)
    requires |h.protocol| <= 65535
    requires var level := 2 + |h.protocol|;
             && TextAt(mem, 0, h.protocol) && level + 2 < |mem| && mem[level] == h.level && mem[level + 1] == flags
             && ShortAt(mem, level + 2, h.keepAlive) && TextAt(mem, level + 4, clientId)
             && level + 6 + |clientId| <= size
    ensures var level := 2 + |h.protocol|;
            && GetUtf8(mem, 0, size) == Got(h.protocol) && GetByte(mem, level) == Got(h.level)
            && GetByte(mem, level + 1) == Got(flags) && GetShort(mem, level + 2) == Got(h.keepAlive)
            && GetUtf8(mem, level + 4, size - (level + 4)) == Got(clientId)
  {
    TextRead(mem, 0, h.protocol, size);
    TextRead(mem, 6 + |h.protocol|, clientId, size - (6 + |h.protocol|));
  }

  lemma OptionalsParsed(mem: seq<byte>, at: nat, size: nat, flags: ConnectFlags, o: Options)
    requires flags.will == o.will.Some?
    requires flags.username == SentText(o, o.username).Some? && flags.password == SentText(o, o.password).Some?
    requires var username := at + TextSize(WillTopic(o)) + TextSize(WillMessage(o));
             var password := username + TextSize(SentText(o, o.username));
             && TextLies(mem, at, WillTopic(o)) && TextLies(mem, at + TextSize(WillTopic(o)), WillMessage(o))
             && TextLies(mem, username, SentText(o, o.username)) && TextLies(mem, password, SentText(o, o.password))
             && size == password + TextSize(SentText(o, o.password))
    ensures ParseOptionals(mem, at, size, flags)
         == Got((FlaggedWill(flags, o), SentText(o, o.username), SentText(o, o.password)))
  {
    hide GetUtf8, TextAt;
    WillParsed(mem, at, size, flags, o);
    var username := at + TextSize(WillTopic(o)) + TextSize(WillMessage(o));
    TextParsed(mem, username, size - username, SentText(o, o.username));
    var password := username + TextSize(SentText(o, o.username));
    TextParsed(mem, password, size - password, SentText(o, o.password));
  }
}
