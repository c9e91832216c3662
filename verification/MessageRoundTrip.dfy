/** Parsing what the writer produced gives back what was written. */
module MessageRoundTrip {
  import opened Basics
  import opened Wire
  import opened DomainNames
  import opened DnsMessages
  import opened DnsParser
  import opened DnsWriter
  import opened CachePolicy

  // ------------------------------------------------------- names

  lemma Split(packet: seq<Byte>, position: nat, whole: seq<Byte>, a: seq<Byte>, b: seq<Byte>)
    requires At(packet, position, whole) && whole == a + b
    ensures At(packet, position, a) && At(packet, position + |a|, b) && |whole| == |a| + |b|
  {
    AtSplit(packet, position, a, b);
  }

  /** A name written at `position` is spelled there without any pointer. */
  lemma {:induction false} EncodedSpells(packet: seq<Byte>, limits: ParseLimits, position: nat, labels: seq<Label>)
    requires EncodableLabels(labels) && At(packet, position, EncodeName(labels))
    ensures Spells(packet, limits, position, labels, [])
    ensures StoredEnd(packet, position) == position + |EncodeName(labels)|
    decreases |labels|
  {
    AtIndex(packet, position, EncodeName(labels), 0);
    if labels != [] {
      FirstLabelAt(packet, position, labels);
      EncodedSpells(packet, limits, position + 1 + |labels[0]|, labels[1..]);
    }
  }

  lemma FirstLabelAt(packet: seq<Byte>, position: nat, labels: seq<Label>)
    requires EncodableLabels(labels) && labels != [] && At(packet, position, EncodeName(labels))
    ensures At(packet, position + 1, labels[0]) && At(packet, position + 1 + |labels[0]|, EncodeName(labels[1..]))
  {
    var prefix, rest := [|labels[0]|], EncodeName(labels[1..]);
    Split(packet, position, EncodeName(labels), prefix + labels[0], rest);
    Split(packet, position, prefix + labels[0], prefix, labels[0]);
  }

  lemma DecodeEncoded(packet: seq<Byte>, limits: ParseLimits, position: nat, name: DomainName)
    requires ValidName(name) && At(packet, position, EncodeName(name.labels))
    ensures NameAt(packet, position, |packet|, limits) == Ok(DecodedName(name, position + |EncodeName(name.labels)|))
  {
    EncodedSpells(packet, limits, position, name.labels);
    DecodesExactly(packet, position, |packet|, limits, Expansion(name.labels, [], position + |EncodeName(name.labels)|));
  }

  /** A pointer to the first question reads as the name of that question. */
  lemma DecodePointer(packet: seq<Byte>, limits: ParseLimits, position: nat, name: DomainName)
    requires ValidName(name) && At(packet, HEADER_SIZE, EncodeName(name.labels)) && At(packet, position, Be16(FIRST_NAME_POINTER))
    requires position > HEADER_SIZE && limits.maximumCompressionPointers >= 1
    ensures NameAt(packet, position, |packet|, limits) == Ok(DecodedName(name, position + 2))
  {
    AtIndex(packet, position, Be16(FIRST_NAME_POINTER), 0);
    AtIndex(packet, position, Be16(FIRST_NAME_POINTER), 1);
    EncodedSpells(packet, limits, HEADER_SIZE, name.labels);
    assert [HEADER_SIZE][1..] == [];
    assert Spells(packet, limits, position, name.labels, [HEADER_SIZE]);
    DecodesExactly(packet, position, |packet|, limits, Expansion(name.labels, [HEADER_SIZE], position + 2));
  }

  // ------------------------------------------------------- questions

  predicate ValidQuestions(questions: seq<Question>) {
    forall k :: 0 <= k < |questions| ==> ValidQuestion(questions[k])
  }

  lemma QuestionReadBack(packet: seq<Byte>, limits: ParseLimits, position: nat, q: Question, parse: ItemParser<Question>, next: nat)
    requires ValidQuestion(q) && At(packet, position, EncodeQuestion(q)) && next == position + |EncodeQuestion(q)|
    requires ReadsQuestions(parse, packet, limits)
    ensures parse(position) == Ok(Parsed(q, next))
  {
    QuestionParts(packet, position, q);
    DecodeEncoded(packet, limits, position, q.name);
    var n := position + |EncodeName(q.name.labels)|;
    ReadBack16(packet, n, q.qtype);
    ReadBack16(packet, n + 2, q.qclass);
    QuestionOf(packet, limits, position, q, n);
  }

  lemma QuestionOf(packet: seq<Byte>, limits: ParseLimits, position: nat, q: Question, n: nat)
    requires NameAt(packet, position, |packet|, limits) == Ok(DecodedName(q.name, n)) && n + 4 <= |packet|
    requires ReadU16(packet, n) == Some(q.qtype) && ReadU16(packet, n + 2) == Some(q.qclass)
    ensures QuestionAt(packet, position, limits) == Ok(Parsed(q, n + 4))
  {
  }

  lemma QuestionParts(packet: seq<Byte>, position: nat, q: Question)
    requires EncodableLabels(q.name.labels) && At(packet, position, EncodeQuestion(q))
    ensures At(packet, position, EncodeName(q.name.labels))
    ensures At(packet, position + |EncodeName(q.name.labels)|, Be16(q.qtype))
    ensures At(packet, position + |EncodeName(q.name.labels)| + 2, Be16(q.qclass))
  {
    var name, qtype, qclass := EncodeName(q.name.labels), Be16(q.qtype), Be16(q.qclass);
    Split(packet, position, EncodeQuestion(q), name + qtype, qclass);
    Split(packet, position, name + qtype, name, qtype);
  }

  /** `parse` reads questions of the packet. */
  ghost predicate ReadsQuestions(parse: ItemParser<Question>, packet: seq<Byte>, limits: ParseLimits) {
    forall offset: nat {:trigger QuestionAt(packet, offset, limits)} :: QuestionAt(packet, offset, limits) == parse(offset)
  }

  lemma FirstQuestion(packet: seq<Byte>, limits: ParseLimits, position: nat, questions: seq<Question>, parse: ItemParser<Question>, next: nat)
    requires questions != [] && ValidQuestion(questions[0]) && EncodableQuestions(questions)
    requires At(packet, position, EncodeQuestions(questions))
    requires ReadsQuestions(parse, packet, limits) && next == position + |EncodeQuestion(questions[0])|
    ensures parse(position) == Ok(Parsed(questions[0], next))
  {
    QuestionsSplit(packet, position, questions, next);
    QuestionReadBack(packet, limits, position, questions[0], parse, next);
  }

  lemma QuestionsSplit(packet: seq<Byte>, position: nat, questions: seq<Question>, next: nat)
    requires EncodableQuestions(questions) && questions != [] && At(packet, position, EncodeQuestions(questions))
    requires next == position + |EncodeQuestion(questions[0])|
    ensures At(packet, position, EncodeQuestion(questions[0])) && At(packet, next, EncodeQuestions(questions[1..]))
    ensures position + |EncodeQuestions(questions)| == next + |EncodeQuestions(questions[1..])|
  {
    EncodedCons(questions);
    Split(packet, position, EncodeQuestions(questions), EncodeQuestion(questions[0]), EncodeQuestions(questions[1..]));
  }

  lemma EncodedCons(questions: seq<Question>)
    requires EncodableQuestions(questions) && questions != []
    ensures EncodeQuestions(questions) == EncodeQuestion(questions[0]) + EncodeQuestions(questions[1..])
  {
  }

  /** Written questions are read one after another. */
  lemma {:induction false} QuestionsAreLaid(packet: seq<Byte>, limits: ParseLimits, position: nat, questions: seq<Question>,
                                            parse: ItemParser<Question>) returns (marks: seq<nat>)
    requires ValidQuestions(questions) && At(packet, position, EncodeQuestions(questions)) && ReadsQuestions(parse, packet, limits)
    ensures Laid(parse, questions, marks) && marks[0] == position && marks[|questions|] == position + |EncodeQuestions(questions)|
    decreases |questions|
  {
    if questions == [] {
      marks := [position];
    } else {
      var next := position + |EncodeQuestion(questions[0])|;
      FirstQuestion(packet, limits, position, questions, parse, next);
      QuestionsSplit(packet, position, questions, next);
      var rest := QuestionsAreLaid(packet, limits, next, questions[1..], parse);
      LaidCons(parse, questions[0], questions[1..], position, rest);
      assert [questions[0]] + questions[1..] == questions;
      marks := [position] + rest;
    }
  }

  lemma QuestionsReadBack(packet: seq<Byte>, limits: ParseLimits, position: nat, questions: seq<Question>, parse: ItemParser<Question>)
    requires ValidQuestions(questions) && At(packet, position, EncodeQuestions(questions)) && ReadsQuestions(parse, packet, limits)
    ensures SectionFrom(parse, |questions|, position, []) == Ok(Parsed(questions, position + |EncodeQuestions(questions)|))
  {
    var marks := QuestionsAreLaid(packet, limits, position, questions, parse);
    SectionReads(parse, questions, marks, 0);
    assert questions[..0] == [];
  }

  // ------------------------------------------------------- header

  lemma HeaderReadBack(packet: seq<Byte>, id: U16, flags: U16, questionCount: U16, answerCount: U16)
    requires At(packet, 0, EncodeHeader(id, flags, questionCount, answerCount))
    ensures |packet| >= HEADER_SIZE && ReadU16(packet, 0) == Some(id) && ReadU16(packet, 2) == Some(flags)
    ensures CountsOf(packet) == Counts(questionCount, answerCount, 0, 0)
  {
    var a, b, c, d, z := Be16(id), Be16(flags), Be16(questionCount), Be16(answerCount), Be16(0);
    Split(packet, 0, EncodeHeader(id, flags, questionCount, answerCount), a + b + c + d + z, z);
    Split(packet, 0, a + b + c + d + z, a + b + c + d, z);
    Split(packet, 0, a + b + c + d, a + b + c, d);
    Split(packet, 0, a + b + c, a + b, c);
    Split(packet, 0, a + b, a, b);
    ReadBack16(packet, 0, id);
    ReadBack16(packet, 2, flags);
    ReadBack16(packet, 4, questionCount);
    ReadBack16(packet, 6, answerCount);
    ReadBack16(packet, 8, 0);
    ReadBack16(packet, 10, 0);
  }

  // ------------------------------------------------------- queries

  /** A header, its counts and the sections they announce make up the message. */
  lemma MessageParts(packet: seq<Byte>, limits: ParseLimits, h: Header, questions: seq<Question>, answers: seq<ResourceRecord>, at: nat)
    requires FlagFault(h).None? && |questions| <= MAX_SECTION_COUNT && |answers| <= MAX_SECTION_COUNT
    requires At(packet, 0, EncodeHeader(h.id, FlagWord(h), |questions|, |answers|))
    requires SectionFrom(Questions(packet, limits), |questions|, HEADER_SIZE, []) == Ok(Parsed(questions, at))
    requires SectionFrom(Records(packet, limits), |answers|, at, []) == Ok(Parsed(answers, |packet|))
    requires |packet| <= limits.maximumPacketSize && CountFault(Counts(|questions|, |answers|, 0, 0), limits).None?
    ensures MessageOf(packet, limits) == Ok(Message(h, questions, answers, [], [], packet))
  {
    HeaderReadBack(packet, h.id, FlagWord(h), |questions|, |answers|);
    FlagsRoundTrip(h);
    BodyOf(packet, limits, h, Counts(|questions|, |answers|, 0, 0), questions, answers, at);
  }

  lemma BodyOf(packet: seq<Byte>, limits: ParseLimits, h: Header, c: Counts, questions: seq<Question>, answers: seq<ResourceRecord>, at: nat)
    requires SectionFrom(Questions(packet, limits), c.questions, HEADER_SIZE, []) == Ok(Parsed(questions, at))
    requires SectionFrom(Records(packet, limits), c.answers, at, []) == Ok(Parsed(answers, |packet|))
    requires c.authorities == 0 && c.additionals == 0
    ensures BodyAt(packet, limits, h, c) == Ok(Message(h, questions, answers, [], [], packet))
  {
  }

  lemma NoRecords(packet: seq<Byte>, limits: ParseLimits, at: nat)
    ensures SectionFrom(Records(packet, limits), 0, at, []) == Ok(Parsed([], at))
  {
  }

  lemma QuestionSections(h: Header, questions: seq<Question>, limits: ParseLimits, bytes: seq<Byte>, parse: ItemParser<Question>)
    requires ValidQuestions(questions) && |questions| <= MAX_SECTION_COUNT && FlagFault(h).None?
    requires bytes == QuestionMessage(h, questions) && ReadsQuestions(parse, bytes, limits)
    ensures At(bytes, 0, EncodeHeader(h.id, FlagWord(h), |questions|, 0))
    ensures SectionFrom(parse, |questions|, HEADER_SIZE, []) == Ok(Parsed(questions, |bytes|))
  {
    Split(bytes, 0, bytes, EncodeHeader(h.id, FlagWord(h), |questions|, 0), EncodeQuestions(questions));
    QuestionsReadBack(bytes, limits, HEADER_SIZE, questions, parse);
  }

  /** What parsing a written question message yields, under any limits. */
  lemma QuestionMessageReadBack(h: Header, questions: seq<Question>, limits: ParseLimits, bytes: seq<Byte>)
    requires ValidQuestions(questions) && |questions| <= MAX_SECTION_COUNT && FlagFault(h).None?
    requires bytes == QuestionMessage(h, questions)
    ensures |bytes| > limits.maximumPacketSize ==> MessageOf(bytes, limits) == Err(ParseError(PacketTooLarge, limits.maximumPacketSize))
    ensures |bytes| <= limits.maximumPacketSize && |questions| > limits.maximumQuestions ==>
              MessageOf(bytes, limits) == Err(ParseError(DnsParser.TooManyQuestions, 4))
    ensures |bytes| <= limits.maximumPacketSize && |questions| <= limits.maximumQuestions ==>
              MessageOf(bytes, limits) == Ok(Message(h, questions, [], [], [], bytes))
  {
    if |bytes| <= limits.maximumPacketSize {
      QuestionSections(h, questions, limits, bytes, Questions(bytes, limits));
      if |questions| > limits.maximumQuestions {
        HeaderReadBack(bytes, h.id, FlagWord(h), |questions|, 0);
      } else {
        NoRecords(bytes, limits, |bytes|);
        MessageParts(bytes, limits, h, questions, [], |bytes|);
      }
    }
  }

  /** The header of a query on its way: the caller's, with the fields of a response cleared. */
  predicate SentAs(h: Header, sent: Header) {
    && sent.id == h.id && !sent.isResponse && sent.opcode == h.opcode
    && !sent.authoritativeAnswer && !sent.truncated && sent.recursionDesired == h.recursionDesired && !sent.recursionAvailable
    && sent.reservedZ == h.reservedZ && sent.authenticatedData == h.authenticatedData && sent.checkingDisabled == h.checkingDisabled
    && sent.responseCode == 0
  }

  /** The header of a local response: the request's id, opcode, RD and CD, and nothing else of it. */
  predicate RespondsTo(request: Header, h: Header, recursionAvailable: bool, code: Byte) {
    && h.id == request.id && h.isResponse && h.opcode == request.opcode
    && !h.authoritativeAnswer && !h.truncated && h.recursionDesired == request.recursionDesired && h.recursionAvailable == recursionAvailable
    && !h.reservedZ && !h.authenticatedData && h.checkingDisabled == request.checkingDisabled && h.responseCode == code
  }

  /**
   * Parsing a serialised query gives back the caller's header, with the fields
   * of a response cleared, and the questions, unless the receiver's size or
   * question limit is exceeded.
   */
  lemma QueryRoundTrip(h: Header, questions: seq<Question>, maximum: nat, limits: ParseLimits)
    requires ValidQuestions(questions) && QueryResult(h, questions, maximum).Ok?
    ensures var bytes := QueryResult(h, questions, maximum).value;
            var parsed := MessageOf(bytes, limits);
            && (parsed.Ok? <==> |bytes| <= limits.maximumPacketSize && |questions| <= limits.maximumQuestions)
            && (parsed.Ok? ==> SentAs(h, parsed.value.header) && parsed.value == Message(parsed.value.header, questions, [], [], [], bytes))
  {
    QuestionMessageReadBack(QueryHeader(h), questions, limits, QuestionMessage(QueryHeader(h), questions));
  }

  // ------------------------------------------------------- address responses

  function AnswerRecords(q: Question, ttl: U32, answers: seq<seq<Byte>>, position: nat): (r: seq<ResourceRecord>)
    ensures |r| == |answers|
  {
    if answers == [] then []
    else [ResourceRecord(q.name, q.qtype, q.qclass, ttl, position + 12, answers[0])]
         + AnswerRecords(q, ttl, answers[1..], position + 12 + |answers[0]|)
  }

  lemma AnswerReadBack(packet: seq<Byte>, limits: ParseLimits, position: nat, q: Question, ttl: U32, address: seq<Byte>,
                       parse: ItemParser<ResourceRecord>)
    requires ValidQuestion(q) && Some(|address|) == AddressSize(q.qtype) && limits.maximumCompressionPointers >= 1
    requires At(packet, HEADER_SIZE, EncodeName(q.name.labels)) && position > HEADER_SIZE
    requires At(packet, position, EncodeAnswer(q, ttl, address)) && ReadsRecords(parse, packet, limits)
    ensures parse(position)
         == Ok(Parsed(ResourceRecord(q.name, q.qtype, q.qclass, ttl, position + 12, address), position + 12 + |address|))
  {
    AnswerParts(packet, position, q, ttl, address);
    DecodePointer(packet, limits, position, q.name);
    FixedReadBack(packet, position, q, ttl, address);
    RecordOf(packet, limits, position, q, ttl, address);
  }

  lemma RecordOf(packet: seq<Byte>, limits: ParseLimits, position: nat, q: Question, ttl: U32, address: seq<Byte>)
    requires Some(|address|) == AddressSize(q.qtype) && NameAt(packet, position, |packet|, limits) == Ok(DecodedName(q.name, position + 2))
    requires FixedAt(packet, position + 2) == Ok(Fixed(q.qtype, q.qclass, ttl, |address|)) && At(packet, position + 12, address)
    ensures RecordAt(packet, position, limits)
         == Ok(Parsed(ResourceRecord(q.name, q.qtype, q.qclass, ttl, position + 12, address), position + 12 + |address|))
  {
    assert RdataFault(packet, q.qtype, position + 12, position + 12 + |address|, limits).None?;
  }

  lemma FixedReadBack(packet: seq<Byte>, position: nat, q: Question, ttl: U32, address: seq<Byte>)
    requires |address| <= 16 && At(packet, position, EncodeAnswer(q, ttl, address))
    ensures FixedAt(packet, position + 2) == Ok(Fixed(q.qtype, q.qclass, ttl, |address|))
  {
    AnswerParts(packet, position, q, ttl, address);
    ReadBack16(packet, position + 2, q.qtype);
    ReadBack16(packet, position + 4, q.qclass);
    ReadBack32(packet, position + 6, ttl);
    ReadBack16(packet, position + 10, |address|);
  }

  lemma AnswerParts(packet: seq<Byte>, position: nat, q: Question, ttl: U32, address: seq<Byte>)
    requires |address| <= 16 && At(packet, position, EncodeAnswer(q, ttl, address))
    ensures At(packet, position, Be16(FIRST_NAME_POINTER)) && At(packet, position + 2, Be16(q.qtype)) && At(packet, position + 4, Be16(q.qclass))
    ensures At(packet, position + 6, Be32(ttl)) && At(packet, position + 10, Be16(|address|)) && At(packet, position + 12, address)
  {
    var a, b, c, d, e := Be16(FIRST_NAME_POINTER), Be16(q.qtype), Be16(q.qclass), Be32(ttl), Be16(|address|);
    Split(packet, position, EncodeAnswer(q, ttl, address), a + b + c + d + e, address);
    Split(packet, position, a + b + c + d + e, a + b + c + d, e);
    Split(packet, position, a + b + c + d, a + b + c, d);
    Split(packet, position, a + b + c, a + b, c);
    Split(packet, position, a + b, a, b);
  }

  lemma {:induction false} AnswerRecordAt(q: Question, ttl: U32, answers: seq<seq<Byte>>, position: nat, k: nat)
    requires k < |answers|
    ensures var r := AnswerRecords(q, ttl, answers, position)[k];
            r.name == q.name && r.rtype == q.qtype && r.rclass == q.qclass && r.ttl == ttl && r.rdata == answers[k]
    decreases k
  {
    if k > 0 {
      AnswerRecordAt(q, ttl, answers[1..], position + 12 + |answers[0]|, k - 1);
    }
  }

  /** `parse` reads records of the packet. */
  ghost predicate ReadsRecords(parse: ItemParser<ResourceRecord>, packet: seq<Byte>, limits: ParseLimits) {
    forall offset: nat {:trigger RecordAt(packet, offset, limits)} :: RecordAt(packet, offset, limits) == parse(offset)
  }

  lemma FirstAnswer(packet: seq<Byte>, limits: ParseLimits, position: nat, q: Question, ttl: U32, answers: seq<seq<Byte>>, size: nat,
                    parse: ItemParser<ResourceRecord>, item: ResourceRecord, next: nat)
    requires ValidQuestion(q) && AddressSize(q.qtype) == Some(size) && AddressesFit(answers, size) && limits.maximumCompressionPointers >= 1
    requires At(packet, HEADER_SIZE, EncodeName(q.name.labels)) && position > HEADER_SIZE
    requires answers != [] && At(packet, position, EncodeAnswers(q, ttl, answers, size)) && ReadsRecords(parse, packet, limits)
    requires item == ResourceRecord(q.name, q.qtype, q.qclass, ttl, position + 12, answers[0]) && next == position + 12 + size
    ensures parse(position) == Ok(Parsed(item, next))
  {
    AnswersSplit(packet, position, q, ttl, answers, size, next);
    AnswerReadBack(packet, limits, position, q, ttl, answers[0], parse);
  }

  lemma AnswersSplit(packet: seq<Byte>, position: nat, q: Question, ttl: U32, answers: seq<seq<Byte>>, size: nat, next: nat)
    requires AddressesFit(answers, size) && size <= 16 && answers != [] && next == position + 12 + size
    requires At(packet, position, EncodeAnswers(q, ttl, answers, size))
    ensures At(packet, position, EncodeAnswer(q, ttl, answers[0])) && At(packet, next, EncodeAnswers(q, ttl, answers[1..], size))
    ensures position + |EncodeAnswers(q, ttl, answers, size)| == next + |EncodeAnswers(q, ttl, answers[1..], size)|
  {
    Split(packet, position, EncodeAnswers(q, ttl, answers, size), EncodeAnswer(q, ttl, answers[0]), EncodeAnswers(q, ttl, answers[1..], size));
  }

  /** Written answers are read one after another. */
  lemma {:induction false} AnswersAreLaid(packet: seq<Byte>, limits: ParseLimits, position: nat, q: Question, ttl: U32,
                                          answers: seq<seq<Byte>>, size: nat, parse: ItemParser<ResourceRecord>) returns (marks: seq<nat>)
    requires ValidQuestion(q) && AddressSize(q.qtype) == Some(size) && AddressesFit(answers, size) && limits.maximumCompressionPointers >= 1
    requires At(packet, HEADER_SIZE, EncodeName(q.name.labels)) && position > HEADER_SIZE
    requires At(packet, position, EncodeAnswers(q, ttl, answers, size)) && ReadsRecords(parse, packet, limits)
    ensures Laid(parse, AnswerRecords(q, ttl, answers, position), marks)
    ensures marks[0] == position && marks[|answers|] == position + |EncodeAnswers(q, ttl, answers, size)|
    decreases |answers|
  {
    if answers == [] {
      marks := [position];
    } else {
      var item := ResourceRecord(q.name, q.qtype, q.qclass, ttl, position + 12, answers[0]);
      var next := position + 12 + size;
      FirstAnswer(packet, limits, position, q, ttl, answers, size, parse, item, next);
      AnswersSplit(packet, position, q, ttl, answers, size, next);
      var rest := AnswersAreLaid(packet, limits, next, q, ttl, answers[1..], size, parse);
      LaidCons(parse, item, AnswerRecords(q, ttl, answers[1..], next), position, rest);
      marks := [position] + rest;
    }
  }

  lemma AnswersReadBack(packet: seq<Byte>, limits: ParseLimits, position: nat, q: Question, ttl: U32, answers: seq<seq<Byte>>, size: nat,
                        parse: ItemParser<ResourceRecord>)
    requires ValidQuestion(q) && AddressSize(q.qtype) == Some(size) && AddressesFit(answers, size) && limits.maximumCompressionPointers >= 1
    requires At(packet, HEADER_SIZE, EncodeName(q.name.labels)) && position > HEADER_SIZE
    requires At(packet, position, EncodeAnswers(q, ttl, answers, size)) && ReadsRecords(parse, packet, limits)
    ensures SectionFrom(parse, |answers|, position, [])
         == Ok(Parsed(AnswerRecords(q, ttl, answers, position), position + |EncodeAnswers(q, ttl, answers, size)|))
  {
    var marks := AnswersAreLaid(packet, limits, position, q, ttl, answers, size, parse);
    var items := AnswerRecords(q, ttl, answers, position);
    SectionReads(parse, items, marks, 0);
    assert items[..0] == [];
  }

  lemma {:induction false} AnswersLength(q: Question, ttl: U32, answers: seq<seq<Byte>>, size: nat)
    requires AddressesFit(answers, size) && size <= 16
    ensures |EncodeAnswers(q, ttl, answers, size)| == |answers| * (12 + size)
  {
    if answers != [] {
      AnswersLength(q, ttl, answers[1..], size);
    }
  }

  predicate AcceptsAnswers(limits: ParseLimits, packetSize: nat, count: nat) {
    && packetSize <= limits.maximumPacketSize && 1 <= limits.maximumQuestions && 1 <= limits.maximumCompressionPointers
    && count <= limits.maximumRecordsPerSection && count <= limits.maximumTotalRecords
  }

  /** What parsing a written address message yields. */
  lemma AddressMessageReadBack(h: Header, q: Question, answers: seq<seq<Byte>>, ttl: U32, size: nat, limits: ParseLimits, bytes: seq<Byte>)
    requires ValidQuestion(q) && |answers| <= MAX_SECTION_COUNT && FlagFault(h).None? && AddressesFit(answers, size)
    requires AddressSize(q.qtype) == Some(size) && bytes == AddressMessage(h, q, answers, ttl, size)
    requires AcceptsAnswers(limits, |bytes|, |answers|)
    ensures MessageOf(bytes, limits)
         == Ok(Message(h, [q], AnswerRecords(q, ttl, answers, HEADER_SIZE + |EncodeQuestion(q)|), [], [], bytes))
  {
    var at := HEADER_SIZE + |EncodeQuestion(q)|;
    AddressSections(h, q, answers, ttl, size, limits, bytes, at, Questions(bytes, limits), Records(bytes, limits));
    MessageParts(bytes, limits, h, [q], AnswerRecords(q, ttl, answers, at), at);
  }

  lemma AddressSections(h: Header, q: Question, answers: seq<seq<Byte>>, ttl: U32, size: nat, limits: ParseLimits, bytes: seq<Byte>, at: nat,
                        parseQuestion: ItemParser<Question>, parseRecord: ItemParser<ResourceRecord>)
    requires ValidQuestion(q) && |answers| <= MAX_SECTION_COUNT && FlagFault(h).None? && AddressesFit(answers, size)
    requires AddressSize(q.qtype) == Some(size) && bytes == AddressMessage(h, q, answers, ttl, size)
    requires limits.maximumCompressionPointers >= 1 && at == HEADER_SIZE + |EncodeQuestion(q)|
    requires ReadsQuestions(parseQuestion, bytes, limits) && ReadsRecords(parseRecord, bytes, limits)
    ensures At(bytes, 0, EncodeHeader(h.id, FlagWord(h), 1, |answers|))
    ensures SectionFrom(parseQuestion, 1, HEADER_SIZE, []) == Ok(Parsed([q], at))
    ensures SectionFrom(parseRecord, |answers|, at, []) == Ok(Parsed(AnswerRecords(q, ttl, answers, at), |bytes|))
  {
    AddressLayout(h, q, answers, ttl, size, bytes, at);
    assert EncodeQuestions([q]) == EncodeQuestion(q);
    QuestionsReadBack(bytes, limits, HEADER_SIZE, [q], parseQuestion);
    AnswersReadBack(bytes, limits, at, q, ttl, answers, size, parseRecord);
  }

  /** Header, question and answers of an address message follow one another. */
  lemma AddressLayout(h: Header, q: Question, answers: seq<seq<Byte>>, ttl: U32, size: nat, bytes: seq<Byte>, at: nat)
    requires EncodableLabels(q.name.labels) && |answers| <= MAX_SECTION_COUNT && FlagFault(h).None? && AddressesFit(answers, size) && size <= 16
    requires bytes == AddressMessage(h, q, answers, ttl, size) && at == HEADER_SIZE + |EncodeQuestion(q)|
    ensures At(bytes, 0, EncodeHeader(h.id, FlagWord(h), 1, |answers|)) && At(bytes, HEADER_SIZE, EncodeQuestion(q))
    ensures At(bytes, HEADER_SIZE, EncodeName(q.name.labels))
    ensures At(bytes, at, EncodeAnswers(q, ttl, answers, size)) && at + |EncodeAnswers(q, ttl, answers, size)| == |bytes|
  {
    var header, question, rest := EncodeHeader(h.id, FlagWord(h), 1, |answers|), EncodeQuestion(q), EncodeAnswers(q, ttl, answers, size);
    Split(bytes, 0, bytes, header + question, rest);
    Split(bytes, 0, header + question, header, question);
    QuestionParts(bytes, HEADER_SIZE, q);
  }

  lemma {:induction false} LeastOfEqual(answers: seq<ResourceRecord>, ttl: U32)
    requires answers != [] && forall k :: 0 <= k < |answers| ==> answers[k].ttl == ttl
    ensures LeastTtl(answers) == ttl
  {
    assert answers[0].ttl == ttl;
  }

  /** The addresses that a response to a question of type `qtype` carries. */
  function Families(answers: seq<seq<Byte>>, qtype: U16): (r: seq<IPAddress>) {
    seq(|answers|, k requires 0 <= k < |answers| => if qtype == TYPE_A then V4(answers[k]) else V6(answers[k]))
  }

  /**
   * An address response of the service, parsed by the service, is cacheable
   * exactly when its time to live is positive, and the cached set then holds
   * the same addresses in the same order with that time to live.
   */
  lemma AddressResponseRoundTrip(request: Message, answers: seq<seq<Byte>>, ttl: U32, recursionAvailable: bool, maximum: nat)
    requires ValidQuestions(request.questions)
    requires AddressResponse(request, answers, ttl, recursionAvailable, maximum).Ok?
    ensures var parsed := MessageOf(AddressResponse(request, answers, ttl, recursionAvailable, maximum).value, DEFAULT_LIMITS);
            && parsed.Ok? && parsed.value.questions == request.questions
            && RespondsTo(request.header, parsed.value.header, recursionAvailable, 0)
            && Cacheable(parsed.value, request.questions[0])
            == if ttl == 0 then None else Some(AddressSet(Families(answers, request.questions[0].qtype), ttl))
  {
    var h := ResponseHeader(request.header, recursionAvailable, RCODE_NO_ERROR);
    var q := request.questions[0];
    var size := AddressSize(q.qtype).value;
    var bytes := AddressMessage(h, q, answers, ttl, size);
    AcceptedByDefault(h, q, answers, ttl, size, bytes);
    AddressMessageReadBack(h, q, answers, ttl, size, DEFAULT_LIMITS, bytes);
    CacheableAnswers(h, q, answers, ttl, HEADER_SIZE + |EncodeQuestion(q)|, bytes);
  }

  /** An address response is written exactly for one address question and at
      least one address, all of the size of its type, when all of it fits. */
  lemma AddressWrittenExactly(request: Message, answers: seq<seq<Byte>>, ttl: U32, recursionAvailable: bool, maximum: nat)
    requires EncodableQuestions(request.questions)
    ensures AddressResponse(request, answers, ttl, recursionAvailable, maximum).Ok? <==>
              && !request.header.isResponse && request.header.opcode <= 15 && 1 <= |answers| <= 0xFFFF && |request.questions| == 1
              && (AddressesWritten(request.questions[0], 1, 4, answers, maximum) || AddressesWritten(request.questions[0], 28, 16, answers, maximum))
  {
    if |request.questions| == 1 && answers != [] {
      var q := request.questions[0];
      if AddressSize(q.qtype).Some? && AddressesFit(answers, AddressSize(q.qtype).value) {
        AnswersLength(q, ttl, answers, AddressSize(q.qtype).value);
      }
    }
  }

  /** The question has the type, every address the size, and header, question and records fit. */
  predicate AddressesWritten(q: Question, qtype: U16, size: nat, answers: seq<seq<Byte>>, maximum: nat) {
    && q.qtype == qtype && (forall k :: 0 <= k < |answers| ==> |answers[k]| == size)
    && 12 + LabelOctets(q.name.labels) + 5 + |answers| * (12 + size) <= maximum <= 0xFFFF
  }

  /** An address message that fits a datagram never exceeds the default record limits. */
  lemma AcceptedByDefault(h: Header, q: Question, answers: seq<seq<Byte>>, ttl: U32, size: nat, bytes: seq<Byte>)
    requires EncodableLabels(q.name.labels) && |answers| <= MAX_SECTION_COUNT && FlagFault(h).None? && AddressesFit(answers, size)
    requires AddressSize(q.qtype) == Some(size) && bytes == AddressMessage(h, q, answers, ttl, size) && |bytes| <= MAX_MESSAGE_SIZE
    ensures AcceptsAnswers(DEFAULT_LIMITS, |bytes|, |answers|)
  {
    AnswersLength(q, ttl, answers, size);
    assert |bytes| == HEADER_SIZE + |EncodeQuestion(q)| + |EncodeAnswers(q, ttl, answers, size)|;
  }

  lemma CacheableAnswers(h: Header, q: Question, answers: seq<seq<Byte>>, ttl: U32, at: nat, bytes: seq<Byte>)
    requires h.isResponse && !h.truncated && h.responseCode == RCODE_NO_ERROR && 1 <= |answers| <= MAX_SECTION_COUNT
    requires AddressSize(q.qtype).Some? && AddressesFit(answers, AddressSize(q.qtype).value)
    ensures Cacheable(Message(h, [q], AnswerRecords(q, ttl, answers, at), [], [], bytes), q)
         == if ttl == 0 then None else Some(AddressSet(Families(answers, q.qtype), ttl))
  {
    var records := AnswerRecords(q, ttl, answers, at);
    forall k | 0 <= k < |answers|
      ensures records[k].name == q.name && records[k].rtype == q.qtype && records[k].rclass == q.qclass && records[k].ttl == ttl
              && records[k].rdata == answers[k]
    {
      AnswerRecordAt(q, ttl, answers, at, k);
    }
    CacheableRecords(Message(h, [q], records, [], [], bytes), q, answers, ttl);
  }

  lemma CacheableRecords(m: Message, q: Question, answers: seq<seq<Byte>>, ttl: U32)
    requires m.header.isResponse && !m.header.truncated && m.header.responseCode == RCODE_NO_ERROR && m.questions == [q]
    requires m.authorities == [] && m.additionals == [] && 1 <= |m.answers| == |answers| <= MAX_SECTION_COUNT
    requires AddressSize(q.qtype).Some? && AddressesFit(answers, AddressSize(q.qtype).value)
    requires forall k :: 0 <= k < |answers| ==>
               var r := m.answers[k];
               r.name == q.name && r.rtype == q.qtype && r.rclass == q.qclass && r.ttl == ttl && r.rdata == answers[k]
    ensures Cacheable(m, q) == if ttl == 0 then None else Some(AddressSet(Families(answers, q.qtype), ttl))
  {
    if ttl == 0 {
      assert !DirectAnswer(m.answers[0], q);
    } else {
      forall k | 0 <= k < |m.answers| ensures DirectAnswer(m.answers[k], q) {
      }
      assert Addresses(m.answers) == Families(answers, q.qtype);
      LeastOfEqual(m.answers, ttl);
    }
  }

  /** A cached set is answered exactly when its addresses are of the family asked for and the response can be written. */
  lemma HitWrittenExactly(request: Message, hit: AddressSet, maximum: nat)
    requires EncodableQuestions(request.questions)
    ensures HitResponse(request, hit, maximum).Ok? <==>
              && !request.header.isResponse && request.header.opcode <= 15 && |request.questions| == 1 && 1 <= |hit.addresses| <= 0xFFFF
              && (HitFits(request.questions[0], 1, 4, hit.addresses, maximum) || HitFits(request.questions[0], 28, 16, hit.addresses, maximum))
  {
    AddressWrittenExactly(request, Octets(hit.addresses), hit.ttl, true, maximum);
    if |request.questions| == 1 {
      var q := request.questions[0];
      HitOctets(q, 1, 4, hit.addresses, maximum);
      HitOctets(q, 28, 16, hit.addresses, maximum);
    }
  }

  /** The question has the type, every address is of its family and size, and header, question and records fit. */
  predicate HitFits(q: Question, qtype: U16, size: nat, addresses: seq<IPAddress>, maximum: nat) {
    && q.qtype == qtype && (forall k :: 0 <= k < |addresses| ==> addresses[k].V4? == (qtype == 1) && |addresses[k].octets| == size)
    && 12 + LabelOctets(q.name.labels) + 5 + |addresses| * (12 + size) <= maximum <= 0xFFFF
  }

  lemma HitOctets(q: Question, qtype: U16, size: nat, addresses: seq<IPAddress>, maximum: nat)
    requires qtype in {1, 28}
    ensures HitFits(q, qtype, size, addresses, maximum) <==>
              AddressesWritten(q, qtype, size, Octets(addresses), maximum) && FamilyMatches(addresses, qtype)
  {
    var octets := Octets(addresses);
    if AddressesWritten(q, qtype, size, octets, maximum) {
      forall k | 0 <= k < |addresses| ensures |addresses[k].octets| == size {
        assert octets[k] == addresses[k].octets;
      }
    }
  }

  /**
   * A cache hit turned into a response and parsed again yields the cached
   * addresses with the remaining time to live of the hit.
   */
  lemma HitRoundTrip(request: Message, hit: AddressSet, maximum: nat)
    requires ValidQuestions(request.questions) && HitResponse(request, hit, maximum).Ok? && hit.ttl > 0
    ensures var parsed := MessageOf(HitResponse(request, hit, maximum).value, DEFAULT_LIMITS);
            parsed.Ok? && Cacheable(parsed.value, request.questions[0]) == Some(hit)
  {
    AddressResponseRoundTrip(request, Octets(hit.addresses), hit.ttl, true, maximum);
    assert Families(Octets(hit.addresses), request.questions[0].qtype) == hit.addresses;
  }
}
