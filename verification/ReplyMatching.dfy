/** The channel and the codec together: a resolver that answers what was sent is understood. */
module ReplyMatching {
  import opened Basics
  import opened Wire
  import opened DomainNames
  import opened DnsMessages
  import opened DnsParser
  import opened DnsWriter
  import opened MessageRoundTrip
  import opened TimerQueue
  import opened TransactionIds
  import opened UpstreamChannel

  /** What a resolver reads in a query that was written as `wire` under `id`. */
  function Received(a: Asked, id: U16, wire: seq<Byte>): Message {
    var h := a.header;
    Message(Header(id, false, h.opcode, false, false, h.recursionDesired, false, h.reservedZ, h.authenticatedData, h.checkingDisabled, RCODE_NO_ERROR),
            [a.question], [], [], [], wire)
  }

  lemma ReceivedExactly(a: Asked, id: U16, wire: seq<Byte>)
    requires ValidQuestion(a.question) && WrittenAs(a, id, wire)
    ensures MessageOf(wire, DEFAULT_LIMITS) == Ok(Received(a, id, wire))
  {
    assert ValidQuestions([a.question]);
    QueryRoundTrip(a.header.(id := id), [a.question], UDP_PAYLOAD_LIMIT, DEFAULT_LIMITS);
  }

  /** A response is read under the channel's limits as it is under the default ones when it fits. */
  lemma ResponseRead(request: Message, answers: seq<seq<Byte>>, ttl: U32, recursionAvailable: bool, packet: seq<Byte>)
    requires ValidQuestions(request.questions) && AddressResponse(request, answers, ttl, recursionAvailable, UDP_PAYLOAD_LIMIT) == Ok(packet)
    ensures var m := MessageOf(packet, UPSTREAM_LIMITS);
            && m.Ok? && m.value.questions == request.questions
            && RespondsTo(request.header, m.value.header, recursionAvailable, 0)
    ensures HEADER_SIZE <= |packet| <= UDP_PAYLOAD_LIMIT && ReadU16(packet, 0) == Some(request.header.id)
  {
    var h := ResponseHeader(request.header, recursionAvailable, RCODE_NO_ERROR);
    var q := request.questions[0];
    var size := AddressSize(q.qtype).value;
    AcceptedByDefault(h, q, answers, ttl, size, packet);
    AddressMessageReadBack(h, q, answers, ttl, size, UPSTREAM_LIMITS, packet);
    ParsedMessageSound(packet, UPSTREAM_LIMITS);
  }

  /**
   * An address response to a query that was sent answers that query: with
   * `Exchange`, a channel whose resolver replies so is always served.
   */
  lemma AddressResponseAnswers(a: Asked, id: U16, wire: seq<Byte>, answers: seq<seq<Byte>>, ttl: U32, recursionAvailable: bool, packet: seq<Byte>)
    requires ValidQuestion(a.question) && WrittenAs(a, id, wire)
    requires AddressResponse(Received(a, id, wire), answers, ttl, recursionAvailable, UDP_PAYLOAD_LIMIT) == Ok(packet)
    ensures MessageOf(wire, DEFAULT_LIMITS) == Ok(Received(a, id, wire))
    ensures Answering(packet, MessageOf(packet, UPSTREAM_LIMITS), id, a)
  {
    ReceivedExactly(a, id, wire);
    ResponseRead(Received(a, id, wire), answers, ttl, recursionAvailable, packet);
  }

  /** The resolver answers every form in which the query can be sent with these addresses. */
  ghost predicate Answers(respond: seq<Byte> -> seq<Byte>, a: Asked, answers: seq<seq<Byte>>, ttl: U32, recursionAvailable: bool)
    requires EncodableLabels(a.question.name.labels)
  {
    forall id: U16, wire: seq<Byte> {:trigger WrittenAs(a, id, wire)} ::
      WrittenAs(a, id, wire) ==> AddressResponse(Received(a, id, wire), answers, ttl, recursionAvailable, UDP_PAYLOAD_LIMIT) == Ok(respond(wire))
  }

  /** Under such a resolver every query that can be written is served. */
  method Resolve(config: ChannelConfig, order: seq<nat>, header: Header, question: Question, respond: seq<Byte> -> seq<Byte>,
                 ghost answers: seq<seq<Byte>>, ghost ttl: U32, ghost recursionAvailable: bool, asked: Ticks, answered: Ticks, picks: nat -> nat,
                 thread: nat) returns (channel: UpstreamChannel, task: Task, packet: seq<Byte>)
    requires ValidConfig(config) && ValidQuestion(question) && asked <= answered
    requires |order| == config.capacity && NoRepeats(order) && forall i :: 0 <= i < |order| ==> order[i] < config.capacity
    requires Writable(Asked(header, question, asked)) && Answers(respond, Asked(header, question, asked), answers, ttl, recursionAvailable)
    ensures channel.Valid() && |channel.desk.replies| == 1 && |packet| >= 2
    ensures channel.desk.replies[0] == Some(Reply(Response, Readdressed(packet, header.id))) && channel.scheduler.ready == [task]
  {
    var sent, wire, matched;
    ghost var parsed;
    channel, task, sent, wire, packet, matched, parsed := Exchange(config, order, header, question, respond, asked, answered, picks, thread);
    AddressResponseAnswers(Asked(header, question, asked), channel.desk.queries[0].id, wire, answers, ttl, recursionAvailable, packet);
  }
}
