/** The decision taken on every datagram a client sends. */
module Datagrams {
  import opened Basics
  import opened Wire
  import opened DomainNames
  import opened DnsMessages
  import opened Words
  import opened DnsParser
  import opened DnsWriter
  import opened MessageRoundTrip

  // ------------------------------------------------------- queries

  datatype QueryError =
    | NotAQuery
    | UnsupportedOpcode
    | InvalidHeaderFlags
    | WrongQuestions
    | UnexpectedAnswerSection
    | ExtensionsNotSupported
    | UnsupportedClass
    | UnsupportedType

  /** Exactly one question for an Internet address and nothing else. */
  predicate AddressQuery(m: Message) {
    && !m.header.isResponse && m.header.opcode == OPCODE_QUERY
    && !m.header.authoritativeAnswer && !m.header.truncated && !m.header.recursionAvailable && !m.header.reservedZ
    && m.header.responseCode == RCODE_NO_ERROR
    && m.answers == [] && m.authorities == [] && m.additionals == []
    && |m.questions| == 1 && m.questions[0].qclass == CLASS_IN && m.questions[0].qtype in {TYPE_A, TYPE_AAAA}
  }

  function ValidateQuery(m: Message): (r: Result<Question, QueryError>)
    ensures r.Ok? <==> AddressQuery(m)
    ensures r.Ok? ==> m.questions == [r.value]
    ensures r == Err(NotAQuery) <==> m.header.isResponse
  {
    if m.header.isResponse then Err(NotAQuery)
    else if m.header.opcode != OPCODE_QUERY then Err(UnsupportedOpcode)
    else if m.header.authoritativeAnswer || m.header.truncated || m.header.recursionAvailable || m.header.reservedZ
            || m.header.responseCode != RCODE_NO_ERROR then Err(InvalidHeaderFlags)
    else if |m.questions| != 1 then Err(WrongQuestions)
    else if m.answers != [] || m.authorities != [] then Err(UnexpectedAnswerSection)
    else if m.additionals != [] then Err(ExtensionsNotSupported)
    else
      var q := m.questions[0];
      if q.qclass != CLASS_IN then Err(UnsupportedClass)
      else if q.qtype != TYPE_A && q.qtype != TYPE_AAAA then Err(UnsupportedType)
      else Ok(q)
  }

  function ResponseCodeFor(e: QueryError): Byte {
    match e
    case WrongQuestions | UnexpectedAnswerSection | InvalidHeaderFlags => RCODE_FORMERR
    case _ => RCODE_NOTIMP
  }

  /** A plain query: clean flags, one question, no answers. */
  predicate WellShaped(m: Message) {
    && !m.header.authoritativeAnswer && !m.header.truncated && !m.header.recursionAvailable && !m.header.reservedZ
    && m.header.responseCode == RCODE_NO_ERROR && |m.questions| == 1 && m.answers == [] && m.authorities == []
  }

  /** A malformed plain query is a format error; what is only unsupported is not implemented. */
  function RefusalCode(m: Message): Byte {
    if m.header.opcode == OPCODE_QUERY && !WellShaped(m) then RCODE_FORMERR else RCODE_NOTIMP
  }

  lemma RefusalCodeSound(m: Message)
    requires ValidateQuery(m).Err? && ValidateQuery(m).error != NotAQuery
    ensures ResponseCodeFor(ValidateQuery(m).error) == RefusalCode(m)
  {
  }

  // ------------------------------------------------------- replies

  /**
   * A reply that the service may send to the sender of `packet`: a response
   * with the given code that carries back the sender's id, opcode and flags as
   * far as the packet has them, and the sender's questions exactly when they fit.
   */
  predicate SafeReply(packet: seq<Byte>, reply: seq<Byte>, code: Byte, questions: seq<Question>) {
    && |packet| >= 2 && !QrSet(packet)
    && HEADER_SIZE <= |reply| <= UDP_PAYLOAD_LIMIT && QrSet(reply) && reply[..2] == packet[..2]
    && var parsed := MessageOf(reply, DEFAULT_LIMITS);
       && parsed.Ok? && Echoes(packet, parsed.value.header, code)
       && parsed.value.questions == (if 12 + QuestionOctets(questions) <= 512 then questions else [])
       && parsed.value.answers == [] && parsed.value.authorities == [] && parsed.value.additionals == []
  }

  /** The id of the packet, and the opcode, RD and CD bits as far as the packet has them. */
  predicate Echoes(packet: seq<Byte>, h: Header, code: Byte)
    requires |packet| >= 2
  {
    && h.id == 256 * packet[0] as nat + packet[1] && h.isResponse && h.responseCode == code
    && h.opcode == (if |packet| >= 3 then packet[2] / 8 % 16 else 0)
    && (h.recursionDesired <==> |packet| >= 3 && packet[2] % 2 == 1)
    && (h.checkingDisabled <==> |packet| >= 4 && packet[3] / 16 % 2 == 1)
    && h.recursionAvailable && !h.authoritativeAnswer && !h.truncated && !h.reservedZ && !h.authenticatedData
  }

  /** An error built from the first octets agrees with one built from the parsed header. */
  lemma PrefixAgrees(prefix: seq<Byte>, code: Byte)
    requires |prefix| >= 4
    ensures PrefixHeader(prefix, code, true) == ResponseHeader(HeaderOf(ReadU16(prefix, 0).value, ReadU16(prefix, 2).value), true, code)
  {
    var flags := ReadU16(prefix, 2).value;
    var upper: nat, lower: nat := prefix[2], prefix[3];
    UpperBits(flags, upper, lower);
    LowerBits(flags, upper, lower);
  }

  lemma UpperBits(flags: U16, upper: nat, lower: nat)
    requires flags == upper * 256 + lower && upper < 256 && lower < 256
    ensures And(flags / 0x800, 15) == (upper / 8) % 16 && (Bit(flags, 8) <==> upper % 2 == 1)
  {
    Powers();
    assert flags / 0x800 == upper / 8;
    LowNibble(upper / 8, upper / 128, (upper / 8) % 16);
    BitAt(flags, 8, 0x100, upper / 2, upper % 2 == 1, lower);
  }

  lemma LowerBits(flags: U16, upper: nat, lower: nat)
    requires flags == upper * 256 + lower && upper < 256 && lower < 256
    ensures Bit(flags, 4) <==> (lower / 16) % 2 == 1
  {
    Powers();
    assert lower == 32 * (lower / 32) + 16 * One((lower / 16) % 2 == 1) + lower % 16;
    BitAt(flags, 4, 0x10, upper * 8 + lower / 32, (lower / 16) % 2 == 1, lower % 16);
  }

  lemma FlagOctets(h: Header)
    requires h.opcode <= 15 && h.responseCode <= 15
    ensures FlagWord(h) / 256 >= 0x80 <==> h.isResponse
  {
  }

  lemma IdOctets(packet: seq<Byte>)
    requires |packet| >= 2
    ensures Be16(ReadU16(packet, 0).value) == packet[..2]
  {
  }

  lemma QrOfFlags(flags: U16)
    ensures Bit(flags, 15) <==> flags / 256 >= 0x80
  {
    Powers();
    if flags < 0x8000 {
      BitAt(flags, 15, 0x8000, 0, false, flags);
    } else {
      BitAt(flags, 15, 0x8000, 0, true, flags - 0x8000);
    }
  }

  /** The parsed QR flag is the top bit of the third octet. */
  lemma QrParsed(packet: seq<Byte>, id: U16)
    requires |packet| >= HEADER_SIZE
    ensures HeaderOf(id, ReadU16(packet, 2).value).isResponse <==> QrSet(packet)
  {
    var flags := ReadU16(packet, 2).value;
    assert flags / 256 == packet[2];
    QrOfFlags(flags);
  }

  lemma HeaderOctets(h: Header, questions: seq<Question>, bytes: seq<Byte>)
    requires EncodableQuestions(questions) && |questions| <= MAX_SECTION_COUNT && FlagFault(h).None? && bytes == QuestionMessage(h, questions)
    ensures |bytes| >= HEADER_SIZE && bytes[..2] == Be16(h.id) && (QrSet(bytes) <==> h.isResponse)
  {
    assert bytes[2] == FlagWord(h) / 256;
    FlagOctets(h);
  }

  lemma ReplyIsSafe(packet: seq<Byte>, h: Header, questions: seq<Question>, bytes: seq<Byte>, echo: seq<Question>)
    requires ValidQuestions(questions) && |questions| <= DEFAULT_LIMITS.maximumQuestions && FlagFault(h).None?
    requires bytes == QuestionMessage(h, questions) && |bytes| <= UDP_PAYLOAD_LIMIT
    requires |packet| >= 2 && !QrSet(packet) && Be16(h.id) == packet[..2]
    requires Echoes(packet, h, h.responseCode) && questions == if 12 + QuestionOctets(echo) <= 512 then echo else []
    ensures SafeReply(packet, bytes, h.responseCode, echo)
  {
    HeaderOctets(h, questions, bytes);
    QuestionMessageReadBack(h, questions, DEFAULT_LIMITS, bytes);
  }

  /** A header-only FORMERR can be built for every prefix with an id that is not marked as a response. */
  lemma FormatErrorSafe(packet: seq<Byte>)
    ensures var r := HeaderOnlyError(packet, RCODE_FORMERR, true, UDP_PAYLOAD_LIMIT);
            (r.Ok? <==> |packet| >= 2 && !QrSet(packet)) && (r.Ok? ==> SafeReply(packet, r.value, RCODE_FORMERR, []))
  {
    if |packet| >= 2 && !QrSet(packet) {
      var h := PrefixHeader(packet, RCODE_FORMERR, true);
      IdOctets(packet);
      ReplyIsSafe(packet, h, [], QuestionMessage(h, []), []);
    }
  }

  /** Every parsed query that is refused gets an answer within the datagram budget. */
  lemma ErrorResponseSafe(packet: seq<Byte>, m: Message, rcode: Byte)
    requires MessageOf(packet, DEFAULT_LIMITS) == Ok(m) && !m.header.isResponse && rcode in {RCODE_FORMERR, RCODE_NOTIMP}
    ensures EncodableQuestions(m.questions)
    ensures var r := ErrorResponse(m, rcode, true, UDP_PAYLOAD_LIMIT); r.Ok? && SafeReply(packet, r.value, rcode, m.questions)
  {
    ParsedMessageSound(packet, DEFAULT_LIMITS);
    ResponseEchoes(packet, m, rcode);
    ErrorReplySafe(packet, m, rcode, ResponseHeader(m.header, true, rcode));
  }

  function Echoed(questions: seq<Question>): seq<Question> {
    if 12 + QuestionOctets(questions) <= 512 then questions else []
  }

  lemma ErrorReplySafe(packet: seq<Byte>, m: Message, rcode: Byte, h: Header)
    requires ValidQuestions(m.questions) && |m.questions| <= DEFAULT_LIMITS.maximumQuestions && !m.header.isResponse
    requires |packet| >= HEADER_SIZE && !QrSet(packet) && h == ResponseHeader(m.header, true, rcode)
    requires Echoes(packet, h, rcode) && Be16(h.id) == packet[..2] && FlagFault(h).None?
    ensures var r := ErrorResponse(m, rcode, true, UDP_PAYLOAD_LIMIT); r.Ok? && SafeReply(packet, r.value, rcode, m.questions)
  {
    var echo := Echoed(m.questions);
    var bytes := QuestionMessage(h, echo);
    ErrorReply(m, rcode, h, echo, bytes);
    ReplyIsSafe(packet, h, echo, bytes, m.questions);
  }

  lemma ErrorReply(m: Message, rcode: Byte, h: Header, echo: seq<Question>, bytes: seq<Byte>)
    requires ValidQuestions(m.questions) && |m.questions| <= MAX_SECTION_COUNT && !m.header.isResponse
    requires h == ResponseHeader(m.header, true, rcode) && FlagFault(h).None?
    requires echo == Echoed(m.questions) && bytes == QuestionMessage(h, echo)
    ensures |bytes| <= UDP_PAYLOAD_LIMIT && ErrorResponse(m, rcode, true, UDP_PAYLOAD_LIMIT) == Ok(bytes)
  {
    QuestionsLength(m.questions);
    QuestionsLength(echo);
  }

  lemma ResponseEchoes(packet: seq<Byte>, m: Message, rcode: Byte)
    requires MessageOf(packet, DEFAULT_LIMITS) == Ok(m) && !m.header.isResponse && rcode in {RCODE_FORMERR, RCODE_NOTIMP}
    ensures |packet| >= HEADER_SIZE && !QrSet(packet)
    ensures var h := ResponseHeader(m.header, true, rcode);
            Echoes(packet, h, rcode) && Be16(h.id) == packet[..2] && FlagFault(h).None?
  {
    ParsedHeader(packet, m);
    HeaderFields(ReadU16(packet, 0).value, ReadU16(packet, 2).value);
    IdOctets(packet);
    PrefixAgrees(packet, rcode);
  }

  lemma ParsedHeader(packet: seq<Byte>, m: Message)
    requires MessageOf(packet, DEFAULT_LIMITS) == Ok(m)
    ensures |packet| >= HEADER_SIZE && m.header == HeaderOf(ReadU16(packet, 0).value, ReadU16(packet, 2).value)
    ensures m.header.id == ReadU16(packet, 0).value && (m.header.isResponse <==> QrSet(packet))
  {
    QrParsed(packet, ReadU16(packet, 0).value);
  }

  // ------------------------------------------------------- the decision

  datatype Outcome = Accepted | Dropped | Truncated | Malformed | Unsupported | InternalError

  datatype Decision = Decision(outcome: Outcome, reply: seq<Byte>, request: Option<Message>)

  /**
   * Whatever the octets are: nothing fails internally, a packet marked as a
   * response is never answered, every reply is a small well-formed error
   * response to the sender's id, and exactly the address queries are accepted.
   */
  method EvaluateDatagram(packet: seq<Byte>, truncated: bool) returns (d: Decision)
    ensures d.outcome != InternalError
    ensures QrSet(packet) ==> d.reply == []
    ensures d.reply != [] && d.outcome != Unsupported ==> SafeReply(packet, d.reply, RCODE_FORMERR, [])
    ensures d.outcome == Unsupported ==>
              MessageOf(packet, DEFAULT_LIMITS).Ok?
              && var m := MessageOf(packet, DEFAULT_LIMITS).value;
                 SafeReply(packet, d.reply, RefusalCode(m), m.questions)
    ensures d.outcome == Accepted <==>
              !truncated && |packet| <= UDP_PAYLOAD_LIMIT && MessageOf(packet, DEFAULT_LIMITS).Ok?
              && AddressQuery(MessageOf(packet, DEFAULT_LIMITS).value)
    ensures d.outcome == Accepted ==> d.reply == [] && d.request == Some(MessageOf(packet, DEFAULT_LIMITS).value)
    ensures d.outcome != Accepted ==> d.request == None
    ensures d.outcome == Malformed <==> !truncated && |packet| <= UDP_PAYLOAD_LIMIT && MessageOf(packet, DEFAULT_LIMITS).Err?
    ensures d.outcome == Truncated <==> (truncated || |packet| > UDP_PAYLOAD_LIMIT) && |packet| >= 3 && !QrSet(packet)
    ensures d.outcome == Unsupported <==>
              !truncated && |packet| <= UDP_PAYLOAD_LIMIT && MessageOf(packet, DEFAULT_LIMITS).Ok? && !QrSet(packet)
              && !AddressQuery(MessageOf(packet, DEFAULT_LIMITS).value)
    ensures d.outcome in {Truncated, Unsupported} ==> d.reply != []
    ensures d.outcome == Malformed ==> (d.reply != [] <==> |packet| >= 2 && !QrSet(packet))
    ensures d.outcome == Dropped ==> QrSet(packet) || |packet| < 3
  {
    if truncated || |packet| > UDP_PAYLOAD_LIMIT {
      if |packet| < 3 || packet[2] >= 0x80 {
        return Decision(Dropped, [], None);
      }
      var formatError := MakeHeaderOnlyErrorResponse(packet, RCODE_FORMERR, true, UDP_PAYLOAD_LIMIT);
      FormatErrorSafe(packet);
      return Decision(Truncated, if formatError.Ok? then formatError.value else [], None);
    }
    var parsed := ParseMessage(packet, DEFAULT_LIMITS);
    if parsed.Err? {
      var formatError := MakeHeaderOnlyErrorResponse(packet, RCODE_FORMERR, true, UDP_PAYLOAD_LIMIT);
      FormatErrorSafe(packet);
      return Decision(Malformed, if formatError.Ok? then formatError.value else [], None);
    }
    ParsedHeader(packet, parsed.value);
    var query := ValidateQuery(parsed.value);
    if query.Err? {
      if query.error == NotAQuery {
        return Decision(Dropped, [], None);
      }
      RefusalCodeSound(parsed.value);
      ErrorResponseSafe(packet, parsed.value, ResponseCodeFor(query.error));
      var response := MakeErrorResponse(parsed.value, ResponseCodeFor(query.error), true, UDP_PAYLOAD_LIMIT);
      if response.Err? {
        return Decision(InternalError, [], None);
      }
      return Decision(Unsupported, response.value, None);
    }
    d := Decision(Accepted, [], Some(parsed.value));
  }
}
